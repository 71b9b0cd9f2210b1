/** What the refresh tokens in the cache mean. A history lists what was done to tokens; the
    ledger reads a token's validity off the history alone. The cache implements the ledger even
    though entries, revocation markers among them, expire. */
module TokenLedger {
  import opened Wrappers
  import opened Text
  import opened IsoTime
  import opened IsoShape
  import opened RedisKeys
  import opened TokenCodec
  import opened LocalCaches

  /** `refresh_token_lifetime_seconds`, and SHA-256 as an unknown function. */
  datatype Settings = Settings(lifetime: int, digest: string -> string)

  ghost predicate Collisionless(cfg: Settings) {
    forall a, b :: cfg.digest(a) == cfg.digest(b) ==> a == b
  }

  /** `stamp` is the reading written into the value, `storedAt` the one behind the expiry. */
  datatype Event =
    | Issued(token: string, user: int, device: Option<string>, stamp: Instant, storedAt: int)
    | Revoked(token: string)
    | RevokedAll(user: int, stamp: Instant, storedAt: int)

  type History = seq<Event>

  /** Readings do not go back and issued tokens are new. */
  ghost predicate WellFormed(h: History) {
    && (forall j | 0 <= j < |h| && !h[j].Revoked? :: h[j].stamp <= h[j].storedAt)
    && (forall i, j | 0 <= i < j < |h| && !h[i].Revoked? && !h[j].Revoked? :: h[i].storedAt <= h[j].stamp)
    && (forall i, j | 0 <= i < j < |h| && h[i].Issued? && h[j].Issued? :: h[i].token != h[j].token)
  }

  /** No reading in the history is later than `now`. */
  ghost predicate Past(h: History, now: int) {
    forall e | e in h && !e.Revoked? :: e.storedAt <= now
  }

  ghost predicate NeverIssued(h: History, token: string) {
    forall e | e in h && e.Issued? :: e.token != token
  }

  lemma ExtendIssued(h: History, token: string, user: int, device: Option<string>, stamp: Instant,
        storedAt: int, t: int)
    requires WellFormed(h) && Past(h, t) && t <= stamp <= storedAt && NeverIssued(h, token)
    ensures WellFormed(h + [Issued(token, user, device, stamp, storedAt)])
    ensures Past(h + [Issued(token, user, device, stamp, storedAt)], storedAt)
  {
  }

  lemma ExtendRevoked(h: History, token: string, t: int)
    requires WellFormed(h) && Past(h, t)
    ensures WellFormed(h + [Revoked(token)]) && Past(h + [Revoked(token)], t)
  {
  }

  lemma ExtendRevokedAll(h: History, user: int, stamp: Instant, storedAt: int, t: int)
    requires WellFormed(h) && Past(h, t) && t <= stamp <= storedAt
    ensures WellFormed(h + [RevokedAll(user, stamp, storedAt)])
    ensures Past(h + [RevokedAll(user, stamp, storedAt)], storedAt)
  {
  }

  predicate Alive(cfg: Settings, storedAt: int, now: int) {
    cfg.lifetime == 0 || now <= storedAt + cfg.lifetime * SECOND
  }

  // ---- The ledger -----------------------------------------------------------------------

  /** `token` was issued to `user` by event `i` and was not revoked on its own since. */
  ghost predicate HeldSince(h: History, token: string, user: int, i: int) {
    && 0 <= i < |h| && h[i].Issued? && h[i].token == token && h[i].user == user
    && (forall j | i < j < |h| :: h[j] != Revoked(token))
  }

  /** The ledger's answer: issued, within its lifetime, not revoked, and no revoke-all of its
      user carries a later stamp. */
  ghost predicate Honoured(cfg: Settings, h: History, token: string, user: int, now: int) {
    exists i :: HeldSince(h, token, user, i)
      && Alive(cfg, h[i].storedAt, now)
      && forall e | e in h && e.RevokedAll? && e.user == user :: e.stamp <= h[i].stamp
  }

  /** The answer of a verification that reads the token at `g1` and the marker at `g2`: only the
      revoke-alls still alive at `g2` count. */
  ghost predicate HonouredAcross(cfg: Settings, h: History, token: string, user: int, g1: int, g2: int) {
    exists i :: HeldSince(h, token, user, i)
      && Alive(cfg, h[i].storedAt, g1)
      && forall e | e in h && e.RevokedAll? && e.user == user && Alive(cfg, e.storedAt, g2) :: e.stamp <= h[i].stamp
  }

  // ---- The cache ------------------------------------------------------------------------

  function TokenKey(cfg: Settings, token: string): string {
    RefreshTokenKey(cfg.digest(token))
  }

  /** The effect of one event on a cache that never evicts. */
  function Apply(cfg: Settings, m: Store, e: Event): Store {
    match e
    case Issued(token, user, device, stamp, storedAt) =>
      m[TokenKey(cfg, token) := Entry(Encode(user, device, stamp), Deadline(storedAt, Some(cfg.lifetime)))]
    case Revoked(token) =>
      Without(m, TokenKey(cfg, token))
    case RevokedAll(user, stamp, storedAt) =>
      m[UserRevokedKey(user) := Entry(IsoFormat(stamp), Deadline(storedAt, Some(cfg.lifetime)))]
  }

  function Image(cfg: Settings, h: History): Store {
    if h == [] then map[] else Apply(cfg, Image(cfg, h[..|h| - 1]), h[|h| - 1])
  }

  lemma ImageStep(cfg: Settings, h: History, e: Event)
    ensures Image(cfg, h + [e]) == Apply(cfg, Image(cfg, h), e)
  {
  }

  /** Writing an issued token's entry keeps a cache in step with the history. */
  lemma IssueKeepsStep(cfg: Settings, store: Store, h: History, t: int, e: Event)
    requires WellFormed(h) && Past(h, t) && Purge(store, t) == Purge(Image(cfg, h), t)
    requires e.Issued? && NeverIssued(h, e.token) && t <= e.stamp <= e.storedAt
    ensures WellFormed(h + [e]) && Past(h + [e], e.storedAt)
    ensures Purge(store[TokenKey(cfg, e.token) := Entry(Encode(e.user, e.device, e.stamp), Deadline(e.storedAt, Some(cfg.lifetime)))], e.storedAt)
         == Purge(Image(cfg, h + [e]), e.storedAt)
  {
    ExtendIssued(h, e.token, e.user, e.device, e.stamp, e.storedAt, t);
    SameAfterUpdate(store, Image(cfg, h), t, e.storedAt, TokenKey(cfg, e.token),
                    Entry(Encode(e.user, e.device, e.stamp), Deadline(e.storedAt, Some(cfg.lifetime))));
    ImageStep(cfg, h, e);
  }

  /** So does writing a user's marker. */
  lemma MarkKeepsStep(cfg: Settings, store: Store, h: History, t: int, e: Event)
    requires WellFormed(h) && Past(h, t) && Purge(store, t) == Purge(Image(cfg, h), t)
    requires e.RevokedAll? && t <= e.stamp <= e.storedAt
    ensures WellFormed(h + [e]) && Past(h + [e], e.storedAt)
    ensures Purge(store[UserRevokedKey(e.user) := Entry(IsoFormat(e.stamp), Deadline(e.storedAt, Some(cfg.lifetime)))], e.storedAt)
         == Purge(Image(cfg, h + [e]), e.storedAt)
  {
    ExtendRevokedAll(h, e.user, e.stamp, e.storedAt, t);
    SameAfterUpdate(store, Image(cfg, h), t, e.storedAt, UserRevokedKey(e.user),
                    Entry(IsoFormat(e.stamp), Deadline(e.storedAt, Some(cfg.lifetime))));
    ImageStep(cfg, h, e);
  }

  datatype Verdict = Accepted(user: int) | Rejected | Malformed

  /** `verify_refresh_token` on a store: two lookups and a string comparison. */
  function Verify(cfg: Settings, m: Store, token: string, g1: int, g2: int): Verdict {
    var value := Lookup(m, g1, TokenKey(cfg, token));
    if value.None? || value.value == "" then Rejected
    else match Decode(value.value)
      case None => Malformed
      case Some((user, created)) =>
        var marker := Lookup(m, g2, UserRevokedKey(user));
        if marker.Some? && marker.value != "" && Less(created, marker.value) then Rejected
        else Accepted(user)
  }

  lemma VerifyByParts(cfg: Settings, m: Store, token: string, g1: int, g2: int, user: int, created: string)
    requires var v := Lookup(m, g1, TokenKey(cfg, token)); v.Some? && v.value != "" && Decode(v.value) == Some((user, created))
    ensures var r := Lookup(m, g2, UserRevokedKey(user));
            Verify(cfg, m, token, g1, g2)
            == if r.Some? && r.value != "" && Less(created, r.value) then Rejected else Accepted(user)
  {
  }

  /** What verification reads, on any cache: a composed text of the user under the token's key, and
      no text later than the creation time under the user's. */
  lemma VerifyReads(cfg: Settings, m: Store, token: string, g1: int, g2: int, user: int)
    ensures var value, marker := Lookup(m, g1, TokenKey(cfg, token)), Lookup(m, g2, UserRevokedKey(user));
            Verify(cfg, m, token, g1, g2) == Accepted(user) <==>
              value.Some? && exists created :: Composed(value.value, user, created) && !(marker.Some? && Less(created, marker.value))
  {
    var value, marker := Lookup(m, g1, TokenKey(cfg, token)), Lookup(m, g2, UserRevokedKey(user));
    if value.Some? {
      var text := value.value;
      forall u, created ensures Decode(text) == Some((u, created)) <==> Composed(text, u, created) {
        DecodeExactly(text, u, created);
      }
      if text != "" && Decode(text).Some? {
        var (u, created) := Decode(text).value;
        VerifyByParts(cfg, m, token, g1, g2, u, created);
      }
    }
  }

  // ---- From the cache to the history ----------------------------------------------------

  /** The event that put `token` where it is, if it is still there. */
  function Holding(h: History, token: string): (r: Option<Event>)
    ensures r.Some? ==> r.value.Issued? && r.value.token == token && r.value in h
  {
    if h == [] then None
    else match h[|h| - 1]
      case Issued(t, _, _, _, _) => if t == token then Some(h[|h| - 1]) else Holding(h[..|h| - 1], token)
      case Revoked(t) => if t == token then None else Holding(h[..|h| - 1], token)
      case RevokedAll(_, _, _) => Holding(h[..|h| - 1], token)
  }

  function LastMarker(h: History, user: int): (r: Option<Event>)
    ensures r.Some? ==> r.value.RevokedAll? && r.value.user == user && r.value in h
  {
    if h == [] then None
    else if h[|h| - 1].RevokedAll? && h[|h| - 1].user == user then Some(h[|h| - 1])
    else LastMarker(h[..|h| - 1], user)
  }

  lemma {:induction false} TokenInImage(cfg: Settings, h: History, token: string)
    requires Collisionless(cfg)
    ensures TokenKey(cfg, token) in Image(cfg, h) <==> Holding(h, token).Some?
    ensures Holding(h, token).Some? ==>
              var e := Holding(h, token).value;
              Image(cfg, h)[TokenKey(cfg, token)]
              == Entry(Encode(e.user, e.device, e.stamp), Deadline(e.storedAt, Some(cfg.lifetime)))
  {
    if h != [] {
      var e := h[|h| - 1];
      TokenInImage(cfg, h[..|h| - 1], token);
      KeysNeverCollide(cfg.digest(token), if e.RevokedAll? then "" else cfg.digest(e.token),
                       if e.RevokedAll? then e.user else 0, 0);
    }
  }

  lemma {:induction false} MarkerInImage(cfg: Settings, h: History, user: int)
    ensures UserRevokedKey(user) in Image(cfg, h) <==> LastMarker(h, user).Some?
    ensures LastMarker(h, user).Some? ==>
              var e := LastMarker(h, user).value;
              Image(cfg, h)[UserRevokedKey(user)]
              == Entry(IsoFormat(e.stamp), Deadline(e.storedAt, Some(cfg.lifetime)))
  {
    if h != [] {
      var e := h[|h| - 1];
      MarkerInImage(cfg, h[..|h| - 1], user);
      KeysNeverCollide(if e.RevokedAll? then "" else cfg.digest(e.token), "",
                       user, if e.RevokedAll? then e.user else 0);
    }
  }

  /** The verdict in terms of the token's last issue and the user's last marker. */
  function Judge(cfg: Settings, h: History, token: string, g1: int, g2: int): Verdict {
    match Holding(h, token)
    case None => Rejected
    case Some(e) =>
      if !Alive(cfg, e.storedAt, g1) then Rejected
      else match LastMarker(h, e.user)
        case None => Accepted(e.user)
        case Some(m) =>
          if Alive(cfg, m.storedAt, g2) && Less(StampText(e.device, e.stamp), IsoFormat(m.stamp)) then Rejected
          else Accepted(e.user)
  }

  lemma TokenLookup(cfg: Settings, h: History, token: string, now: int)
    requires Collisionless(cfg)
    ensures Lookup(Image(cfg, h), now, TokenKey(cfg, token))
         == (match Holding(h, token)
             case None => None
             case Some(e) => if Alive(cfg, e.storedAt, now) then Some(Encode(e.user, e.device, e.stamp)) else None)
  {
    TokenInImage(cfg, h, token);
  }

  lemma MarkerLookup(cfg: Settings, h: History, user: int, now: int)
    ensures Lookup(Image(cfg, h), now, UserRevokedKey(user))
         == (match LastMarker(h, user)
             case None => None
             case Some(m) => if Alive(cfg, m.storedAt, now) then Some(IsoFormat(m.stamp)) else None)
  {
    MarkerInImage(cfg, h, user);
  }

  lemma VerifyIsJudge(cfg: Settings, h: History, token: string, g1: int, g2: int)
    requires Collisionless(cfg)
    ensures Verify(cfg, Image(cfg, h), token, g1, g2) == Judge(cfg, h, token, g1, g2)
  {
    var m := Image(cfg, h);
    TokenLookup(cfg, h, token, g1);
    if Holding(h, token).Some? && Alive(cfg, Holding(h, token).value.storedAt, g1) {
      var e := Holding(h, token).value;
      DecodeEncode(e.user, e.device, e.stamp);
      VerifyByParts(cfg, m, token, g1, g2, e.user, StampText(e.device, e.stamp));
      MarkerLookup(cfg, h, e.user, g2);
    }
  }

  lemma HeldInFront(h: History, token: string, user: int, i: int)
    requires h != [] && i < |h| - 1
    ensures HeldSince(h, token, user, i) <==> HeldSince(h[..|h| - 1], token, user, i) && h[|h| - 1] != Revoked(token)
  {
  }

  /** In a well-formed history the token is held exactly since its one issue. */
  lemma {:induction false} HoldingIsHeld(h: History, token: string) returns (i: int)
    requires Holding(h, token).Some?
    ensures HeldSince(h, token, Holding(h, token).value.user, i) && h[i] == Holding(h, token).value
  {
    if h[|h| - 1].Issued? && h[|h| - 1].token == token {
      i := |h| - 1;
    } else {
      i := HoldingIsHeld(h[..|h| - 1], token);
      HeldInFront(h, token, Holding(h, token).value.user, i);
    }
  }

  lemma {:induction false} HeldIsHolding(h: History, token: string, user: int, i: int)
    requires WellFormed(h) && HeldSince(h, token, user, i)
    ensures Holding(h, token) == Some(h[i])
  {
    if i < |h| - 1 {
      HeldInFront(h, token, user, i);
      HeldIsHolding(h[..|h| - 1], token, user, i);
    }
  }

  lemma HoldingIffHeld(h: History, token: string, user: int)
    requires WellFormed(h)
    ensures Holding(h, token).Some? && Holding(h, token).value.user == user
       <==> exists i :: HeldSince(h, token, user, i)
    ensures forall i | HeldSince(h, token, user, i) :: Holding(h, token) == Some(h[i])
  {
    if Holding(h, token).Some? { var i := HoldingIsHeld(h, token); }
    forall i | HeldSince(h, token, user, i) ensures Holding(h, token) == Some(h[i]) {
      HeldIsHolding(h, token, user, i);
    }
  }

  /** The last marker is the latest, in both of its readings. */
  lemma {:induction false} LastMarkerIsLatest(h: History, user: int)
    requires WellFormed(h)
    ensures LastMarker(h, user).None? ==> forall e | e in h && e.RevokedAll? :: e.user != user
    ensures LastMarker(h, user).Some? ==>
              forall e | e in h && e.RevokedAll? && e.user == user ::
                e.stamp <= LastMarker(h, user).value.stamp && e.storedAt <= LastMarker(h, user).value.storedAt
  {
    if h != [] {
      var p, last := h[..|h| - 1], h[|h| - 1];
      LastMarkerIsLatest(p, user);
      forall e | e in h && e.RevokedAll? && e.user == user
        ensures LastMarker(h, user).Some? && e.stamp <= LastMarker(h, user).value.stamp
                && e.storedAt <= LastMarker(h, user).value.storedAt
      {
        var k :| 0 <= k < |h| && h[k] == e;
        if k < |p| { assert e == p[k] && e in p; }
      }
    }
  }

  // ---- Main results ---------------------------------------------------------------------

  /** Every device string the token was issued for is free of colons. */
  ghost predicate PlainDevice(h: History, token: string) {
    forall e | e in h && e.Issued? && e.token == token :: ColonFree(e.device)
  }

  /** Verification with two readings, exactly. */
  lemma VerifyExactly(cfg: Settings, h: History, token: string, user: int, g1: int, g2: int)
    requires Collisionless(cfg) && WellFormed(h) && PlainDevice(h, token)
    ensures Verify(cfg, Image(cfg, h), token, g1, g2) == Accepted(user)
       <==> HonouredAcross(cfg, h, token, user, g1, g2)
    ensures Verify(cfg, Image(cfg, h), token, g1, g2) != Malformed
  {
    VerifyIsJudge(cfg, h, token, g1, g2);
    HoldingIffHeld(h, token, user);
    if Holding(h, token).Some? && Holding(h, token).value.user == user {
      var i :| HeldSince(h, token, user, i);
      assert Holding(h, token) == Some(h[i]);
      DecodeEncode(user, h[i].device, h[i].stamp);
      LastMarkerIsLatest(h, user);
      if LastMarker(h, user).Some? {
        StringOrderIsTimeOrder(h[i].stamp, LastMarker(h, user).value.stamp);
      }
    }
  }

  /** A revoke-all stamped after a token's creation outlives the token. */
  lemma MarkerOutlivesToken(cfg: Settings, h: History, i: int, e: Event, now: int)
    requires WellFormed(h) && 0 <= i < |h| && h[i].Issued? && e in h && e.RevokedAll?
    requires h[i].stamp < e.stamp && Alive(cfg, h[i].storedAt, now)
    ensures Alive(cfg, e.storedAt, now)
  {
  }

  /** The cache implements the ledger: with one reading per verification, a token is accepted
      for a user exactly when the ledger honours it, although markers may have expired. */
  lemma VerifyMatchesLedger(cfg: Settings, h: History, token: string, user: int, now: int)
    requires Collisionless(cfg) && WellFormed(h) && PlainDevice(h, token)
    ensures Verify(cfg, Image(cfg, h), token, now, now) == Accepted(user)
       <==> Honoured(cfg, h, token, user, now)
  {
    VerifyExactly(cfg, h, token, user, now, now);
    if HonouredAcross(cfg, h, token, user, now, now) {
      var i :| HeldSince(h, token, user, i) && Alive(cfg, h[i].storedAt, now)
        && forall e | e in h && e.RevokedAll? && e.user == user && Alive(cfg, e.storedAt, now) :: e.stamp <= h[i].stamp;
      forall e | e in h && e.RevokedAll? && e.user == user
        ensures e.stamp <= h[i].stamp
      {
        if h[i].stamp < e.stamp { MarkerOutlivesToken(cfg, h, i, e, now); }
      }
    }
  }

  /** The user for whom the ledger honours the token. */
  ghost function HonouredUser(cfg: Settings, h: History, token: string, now: int): (r: Option<int>)
    requires WellFormed(h)
    ensures forall u :: Honoured(cfg, h, token, u, now) <==> r == Some(u)
  {
    HoldingIffHeld(h, token, if Holding(h, token).Some? then Holding(h, token).value.user else 0);
    forall u ensures Honoured(cfg, h, token, u, now) ==> Holding(h, token).Some? && u == Holding(h, token).value.user {
      HoldingIffHeld(h, token, u);
    }
    if Holding(h, token).Some? && Honoured(cfg, h, token, Holding(h, token).value.user, now)
    then Some(Holding(h, token).value.user)
    else None
  }

  /** `e` revokes all tokens of the user of `issue` and is stamped after it. */
  ghost predicate Cancels(h: History, issue: Event, e: Event)
    requires issue.Issued?
  {
    e in h && e.RevokedAll? && e.user == issue.user && issue.stamp < e.stamp
  }

  lemma HonouredByCancels(cfg: Settings, h: History, token: string, user: int, i: int, g1: int, g2: int)
    requires WellFormed(h) && HeldSince(h, token, user, i) && Alive(cfg, h[i].storedAt, g1)
    ensures HonouredAcross(cfg, h, token, user, g1, g2) <==> forall e | Cancels(h, h[i], e) :: !Alive(cfg, e.storedAt, g2)
    ensures Honoured(cfg, h, token, user, g1) <==> forall e :: !Cancels(h, h[i], e)
  {
    forall k | HeldSince(h, token, user, k) ensures k == i {}
    forall e | e in h && e.RevokedAll? && e.user == user && h[i].stamp < e.stamp ensures Cancels(h, h[i], e) {}
  }

  /** The two readings agree with the ledger exactly when some revoke-all that cancels the token
      is still in force at the second reading, or none cancels it. */
  lemma TwoReadingsMatchLedger(cfg: Settings, h: History, token: string, user: int, i: int, g1: int, g2: int)
    requires Collisionless(cfg) && WellFormed(h) && PlainDevice(h, token)
    requires HeldSince(h, token, user, i) && Alive(cfg, h[i].storedAt, g1)
    ensures (Verify(cfg, Image(cfg, h), token, g1, g2) == Accepted(user) <==> Honoured(cfg, h, token, user, g1))
       <==> ((exists e :: Cancels(h, h[i], e)) ==> exists e :: Cancels(h, h[i], e) && Alive(cfg, e.storedAt, g2))
  {
    VerifyExactly(cfg, h, token, user, g1, g2);
    HonouredByCancels(cfg, h, token, user, i, g1, g2);
  }

  lemma LatestCanceller(h: History, i: nat)
    requires WellFormed(h) && i < |h| && h[i].Issued? && exists e :: Cancels(h, h[i], e)
    ensures var m := LastMarker(h, h[i].user);
            && m.Some? && Cancels(h, h[i], m.value) && h[i].storedAt <= m.value.storedAt
            && forall e | Cancels(h, h[i], e) :: e.storedAt <= m.value.storedAt
  {
    LastMarkerIsLatest(h, h[i].user);
    var m := LastMarker(h, h[i].user).value;
    var j :| 0 <= j < |h| && h[j] == m;
    assert i < j;
  }

  /** Whenever a held token has been cancelled within its lifetime, a verification that reads the
      token in time and the marker after the marker's expiry accepts it, against the ledger. */
  lemma StraddlingVerifyRevives(cfg: Settings, h: History, token: string, user: int, i: nat) returns (g1: int, g2: int)
    requires Collisionless(cfg) && cfg.lifetime > 0 && WellFormed(h) && PlainDevice(h, token)
    requires HeldSince(h, token, user, i) && Past(h, h[i].storedAt + cfg.lifetime * SECOND)
    requires exists e :: Cancels(h, h[i], e)
    ensures Past(h, g1) && g1 <= g2 && Alive(cfg, h[i].storedAt, g1)
    ensures Verify(cfg, Image(cfg, h), token, g1, g2) == Accepted(user)
    ensures !Honoured(cfg, h, token, user, g1)
  {
    LatestCanceller(h, i);
    var m := LastMarker(h, user).value;
    g1, g2 := h[i].storedAt + cfg.lifetime * SECOND, m.storedAt + cfg.lifetime * SECOND + 1;
    assert forall e | Cancels(h, h[i], e) :: !Alive(cfg, e.storedAt, g2);
    TwoReadingsMatchLedger(cfg, h, token, user, i, g1, g2);
    RevokedAllNotHonoured(cfg, h, i, m, user, g1);
  }

  lemma RevokedAllNotHonoured(cfg: Settings, h: History, k: int, r: Event, user: int, now: int)
    requires WellFormed(h) && 0 <= k < |h| && h[k].Issued?
    requires r in h && r.RevokedAll? && r.user == h[k].user && h[k].stamp < r.stamp
    ensures !Honoured(cfg, h, h[k].token, user, now)
  {
  }

  /** Revocation of a user is permanent: whatever happens later, and however much time passes,
      no token created strictly before the revocation is accepted again. */
  lemma RevokeAllIsPermanent(cfg: Settings, h: History, later: History, e: Event, r: Event, now: int)
    requires Collisionless(cfg) && e.Issued? && r.RevokedAll? && e.user == r.user && e.stamp < r.stamp
    requires e in h && WellFormed(h + [r] + later) && PlainDevice(h + [r] + later, e.token)
    ensures Verify(cfg, Image(cfg, h + [r] + later), e.token, now, now) == Rejected
  {
    var all := h + [r] + later;
    var k :| 0 <= k < |h| && h[k] == e;
    assert all[k] == e && all[|h|] == r && r in all;
    var verdict := Verify(cfg, Image(cfg, all), e.token, now, now);
    var user := if verdict.Accepted? then verdict.user else 0;
    VerifyExactly(cfg, all, e.token, user, now, now);
    VerifyMatchesLedger(cfg, all, e.token, user, now);
    RevokedAllNotHonoured(cfg, all, k, r, user, now);
  }

  lemma DropOne(h: History, r: Event, later: History)
    requires WellFormed(h + [r] + later)
    ensures WellFormed(h + later)
    ensures forall e | e in h + later :: e in h + [r] + later
    ensures forall e | e in h + [r] + later && e != r :: e in h + later
  {
    var all, rest := h + [r] + later, h + later;
    forall j | 0 <= j < |rest| ensures rest[j] == all[if j < |h| then j else j + 1] {}
    forall j | 0 <= j < |all| && j != |h| ensures all[j] == rest[if j < |h| then j else j - 1] {}
  }

  lemma HeldWithoutMarker(h: History, r: Event, later: History, token: string, user: int, i: int)
    requires r.RevokedAll?
    ensures var k := if i < |h| then i else i + 1;
            HeldSince(h + later, token, user, i) <==> HeldSince(h + [r] + later, token, user, k)
  {
    var all, rest := h + [r] + later, h + later;
    forall j | 0 <= j < |rest| ensures rest[j] == all[if j < |h| then j else j + 1] {}
    forall j | 0 <= j < |all| && j != |h| ensures all[j] == rest[if j < |h| then j else j - 1] {}
  }

  lemma HonouredThenAdded(cfg: Settings, h: History, r: Event, later: History, token: string, user: int, now: int)
    requires WellFormed(h + [r] + later) && r.RevokedAll? && Honoured(cfg, h + later, token, user, now)
    requires forall e | e in h + later && e.Issued? && e.token == token :: e.user != r.user || r.stamp <= e.stamp
    ensures Honoured(cfg, h + [r] + later, token, user, now)
  {
    var all, rest := h + [r] + later, h + later;
    DropOne(h, r, later);
    var i :| HeldSince(rest, token, user, i) && Alive(cfg, rest[i].storedAt, now)
      && forall e | e in rest && e.RevokedAll? && e.user == user :: e.stamp <= rest[i].stamp;
    HeldWithoutMarker(h, r, later, token, user, i);
    var k := if i < |h| then i else i + 1;
    assert all[k] == rest[i] && rest[i] in rest;
  }

  lemma HonouredThenDropped(cfg: Settings, h: History, r: Event, later: History, token: string, user: int, now: int)
    requires WellFormed(h + [r] + later) && r.RevokedAll? && Honoured(cfg, h + [r] + later, token, user, now)
    ensures Honoured(cfg, h + later, token, user, now)
  {
    var all, rest := h + [r] + later, h + later;
    DropOne(h, r, later);
    var k :| HeldSince(all, token, user, k) && Alive(cfg, all[k].storedAt, now)
      && forall e | e in all && e.RevokedAll? && e.user == user :: e.stamp <= all[k].stamp;
    var i := if k < |h| then k else k - 1;
    HeldWithoutMarker(h, r, later, token, user, i);
    assert all[k] == rest[i] && HeldSince(rest, token, user, i);
    forall e | e in rest && e.RevokedAll? && e.user == user ensures e.stamp <= rest[i].stamp {
      assert e in all;
    }
  }

  lemma VerifyOfLiveEntries(cfg: Settings, a: Store, b: Store, token: string, t: int, now: int)
    requires t <= now && Purge(a, t) == Purge(b, t)
    ensures Verify(cfg, a, token, now, now) == Verify(cfg, b, token, now, now)
  {
    EqualLookups(a, b, t, now, TokenKey(cfg, token));
    var v := Lookup(a, now, TokenKey(cfg, token));
    if v.Some? && Decode(v.value).Some? {
      EqualLookups(a, b, t, now, UserRevokedKey(Decode(v.value).value.0));
    }
  }

  lemma LatestTokenHonoured(cfg: Settings, h: History, i: nat, now: int)
    requires cfg.lifetime >= 0 && WellFormed(h)
    requires i < |h| && h[i].Issued? && h[i].storedAt == now && ColonFree(h[i].device)
    requires forall j | i < j < |h| :: h[j].Revoked? && h[j].token != h[i].token
    ensures PlainDevice(h, h[i].token) && Honoured(cfg, h, h[i].token, h[i].user, now)
  {
    assert HeldSince(h, h[i].token, h[i].user, i);
  }

  /** A token issued at the present reading, with only other tokens revoked since, verifies for the
      user it was issued to, on every cache with the history's live entries. */
  lemma FreshTokenVerifies(cfg: Settings, store: Store, h: History, i: nat, now: int)
    requires Collisionless(cfg) && cfg.lifetime >= 0 && WellFormed(h) && Purge(store, now) == Purge(Image(cfg, h), now)
    requires i < |h| && h[i].Issued? && h[i].storedAt == now && ColonFree(h[i].device)
    requires forall j | i < j < |h| :: h[j].Revoked? && h[j].token != h[i].token
    ensures Verify(cfg, store, h[i].token, now, now) == Accepted(h[i].user)
  {
    LatestTokenHonoured(cfg, h, i, now);
    VerifyMatchesLedger(cfg, h, h[i].token, h[i].user, now);
    VerifyOfLiveEntries(cfg, store, Image(cfg, h), h[i].token, now, now);
  }

  lemma OneIssuePlain(h: History, e: Event)
    requires WellFormed(h) && e in h && e.Issued? && ColonFree(e.device)
    ensures PlainDevice(h, e.token)
  {
    var i :| 0 <= i < |h| && h[i] == e;
    forall x | x in h && x.Issued? && x.token == e.token ensures x == e {
      var j :| 0 <= j < |h| && h[j] == x;
    }
  }

  /** On a cache with the live entries of a history that ends in a revoke-all, no earlier-stamped
      token of its user verifies, then or later. */
  lemma RevokedAllRejected(cfg: Settings, store: Store, h: History, r: Event, e: Event, t: int, now: int)
    requires Collisionless(cfg) && WellFormed(h + [r]) && t <= now && Purge(store, t) == Purge(Image(cfg, h + [r]), t)
    requires r.RevokedAll? && e in h && e.Issued? && e.user == r.user && e.stamp < r.stamp && ColonFree(e.device)
    ensures Verify(cfg, store, e.token, now, now) == Rejected
  {
    assert h + [r] + [] == h + [r];
    OneIssuePlain(h + [r], e);
    RevokeAllIsPermanent(cfg, h, [], e, r, now);
    VerifyOfLiveEntries(cfg, store, Image(cfg, h + [r]), e.token, t, now);
  }

  /** For a device with a colon the text after its first colon takes part in the comparison. */
  lemma ColonDeviceVerdict(cfg: Settings, h: History, token: string, e: Event, head: string, tail: string, g1: int, g2: int)
    requires Collisionless(cfg) && Holding(h, token) == Some(e) && Alive(cfg, e.storedAt, g1)
    requires ':' !in head && e.device == Some(head + ":" + tail)
    ensures Verify(cfg, Image(cfg, h), token, g1, g2) ==
              var m := LastMarker(h, e.user);
              if m.Some? && Alive(cfg, m.value.storedAt, g2) && Less(tail + ":" + IsoFormat(e.stamp), IsoFormat(m.value.stamp))
              then Rejected else Accepted(e.user)
  {
    VerifyIsJudge(cfg, h, token, g1, g2);
    StampOfColonDevice(head, tail, e.stamp);
  }

  lemma EqualVerdicts(a: Verdict, b: Verdict)
    requires a != Malformed && b != Malformed
    requires forall u :: a == Accepted(u) <==> b == Accepted(u)
    ensures a == b
  {
  }

  /** A revoke-all touches neither other users' tokens nor tokens stamped at or after it. */
  lemma RevokeAllSparesTheRest(cfg: Settings, h: History, later: History, r: Event, token: string, now: int)
    requires Collisionless(cfg) && r.RevokedAll? && WellFormed(h + [r] + later) && PlainDevice(h + [r] + later, token)
    requires forall e | e in h + later && e.Issued? && e.token == token :: e.user != r.user || r.stamp <= e.stamp
    ensures WellFormed(h + later)
    ensures Verify(cfg, Image(cfg, h + [r] + later), token, now, now) == Verify(cfg, Image(cfg, h + later), token, now, now)
  {
    var all, rest := h + [r] + later, h + later;
    DropOne(h, r, later);
    VerifyExactly(cfg, all, token, 0, now, now);
    VerifyExactly(cfg, rest, token, 0, now, now);
    var a, b := Verify(cfg, Image(cfg, all), token, now, now), Verify(cfg, Image(cfg, rest), token, now, now);
    forall u ensures a == Accepted(u) <==> b == Accepted(u) {
      VerifyMatchesLedger(cfg, all, token, u, now);
      VerifyMatchesLedger(cfg, rest, token, u, now);
      if Honoured(cfg, rest, token, u, now) { HonouredThenAdded(cfg, h, r, later, token, u, now); }
      if Honoured(cfg, all, token, u, now) { HonouredThenDropped(cfg, h, r, later, token, u, now); }
    }
    EqualVerdicts(a, b);
  }

  // ---- Tokens revoked one by one, users kept apart, devices with a colon ----------------

  lemma {:induction false} HoldingAfterRevoke(h: History, token: string, later: History)
    requires NeverIssued(later, token)
    ensures Holding(h + [Revoked(token)] + later, token).None?
  {
    var all := h + [Revoked(token)] + later;
    if later == [] {
      assert all == h + [Revoked(token)];
    } else {
      var front := later[..|later| - 1];
      assert all[..|all| - 1] == h + [Revoked(token)] + front;
      HoldingAfterRevoke(h, token, front);
      assert later[|later| - 1] in later;
    }
  }

  /** A token revoked after its issue is never accepted again, for any device and any readings. */
  lemma RevokedTokenStaysRevoked(cfg: Settings, h: History, later: History, token: string, g1: int, g2: int)
    requires Collisionless(cfg) && WellFormed(h + [Revoked(token)] + later) && !NeverIssued(h, token)
    ensures Verify(cfg, Image(cfg, h + [Revoked(token)] + later), token, g1, g2) == Rejected
  {
    var all := h + [Revoked(token)] + later;
    var e :| e in h && e.Issued? && e.token == token;
    var k :| 0 <= k < |h| && h[k] == e;
    forall x | x in later && x.Issued? ensures x.token != token {
      var j :| 0 <= j < |later| && later[j] == x;
      assert all[k] == e && all[|h| + 1 + j] == x;
    }
    HoldingAfterRevoke(h, token, later);
    VerifyIsJudge(cfg, all, token, g1, g2);
  }

  /** The event acts on `user`: on their tokens or on their marker. */
  ghost predicate Concerns(all: History, e: Event, user: int) {
    if e.Revoked? then exists x :: x in all && x.Issued? && x.token == e.token && x.user == user
    else e.user == user
  }

  /** `h` without everything that was done to `user`. */
  ghost function Others(h: History, all: History, user: int): History {
    if h == [] then []
    else Others(h[..|h| - 1], all, user) + if Concerns(all, h[|h| - 1], user) then [] else [h[|h| - 1]]
  }

  lemma {:induction false} FoldsIgnoreOthers(h: History, all: History, user: int, token: string, v: int)
    requires forall e | e in h :: e in all
    requires forall e | e in all && e.Issued? && e.token == token :: e.user != user
    requires v != user
    ensures Holding(Others(h, all, user), token) == Holding(h, token)
    ensures LastMarker(Others(h, all, user), v) == LastMarker(h, v)
  {
    if h != [] {
      var p, last := h[..|h| - 1], h[|h| - 1];
      assert last in h;
      FoldsIgnoreOthers(p, all, user, token, v);
      var o := Others(h, all, user);
      if !Concerns(all, last, user) {
        assert o[..|o| - 1] == Others(p, all, user);
      } else {
        assert o == Others(p, all, user);
      }
    }
  }

  /** Nothing that acts on the user is left, and everything else is. */
  lemma {:induction false} OthersExactly(h: History, all: History, user: int)
    ensures forall e :: e in Others(h, all, user) <==> e in h && !Concerns(all, e, user)
    ensures forall e | e in Others(h, all, user) && !e.Revoked? :: e.user != user
    ensures forall e | e in Others(h, all, user) && e.Revoked? ::
              forall x | x in all && x.Issued? && x.token == e.token :: x.user != user
    ensures forall e | e in h && !e.Revoked? && e.user != user :: e in Others(h, all, user)
    ensures (forall e | e in h :: !Concerns(all, e, user)) ==> Others(h, all, user) == h
  {
    if h != [] {
      var front, last := h[..|h| - 1], h[|h| - 1];
      OthersExactly(front, all, user);
      assert h == front + [last];
    }
  }

  /** Nothing done to one user changes the verification of another user's token. */
  lemma UsersAreIsolated(cfg: Settings, h: History, user: int, token: string, g1: int, g2: int)
    requires Collisionless(cfg)
    requires forall e | e in h && e.Issued? && e.token == token :: e.user != user
    ensures Verify(cfg, Image(cfg, h), token, g1, g2) == Verify(cfg, Image(cfg, Others(h, h, user)), token, g1, g2)
    ensures forall e | e in Others(h, h, user) && !e.Revoked? :: e.user != user
  {
    VerifyIsJudge(cfg, h, token, g1, g2);
    VerifyIsJudge(cfg, Others(h, h, user), token, g1, g2);
    OthersExactly(h, h, user);
    var v := if Holding(h, token).Some? then Holding(h, token).value.user else user + 1;
    FoldsIgnoreOthers(h, h, user, token, v);
  }

  ghost predicate UsesDevice(h: History, token: string, device: Option<string>) {
    forall e | e in h && e.Issued? && e.token == token :: e.device == device
  }

  /** All readings lie between `lo` and `hi`. */
  ghost predicate Within(h: History, lo: int, hi: int) {
    forall e | e in h && !e.Revoked? :: lo <= e.stamp && e.storedAt <= hi
  }

  /** In every run between `lo` and `hi` the ledger decides the tokens issued for `device`. */
  ghost predicate KeepsLedger(cfg: Settings, device: Option<string>, lo: int, hi: int) {
    forall h: History, token, user, now |
      WellFormed(h) && Past(h, now) && Within(h, lo, hi) && lo <= now <= hi && UsesDevice(h, token, device) ::
      Verify(cfg, Image(cfg, h), token, now, now) == Accepted(user) <==> Honoured(cfg, h, token, user, now)
  }

  lemma NegativeLifetime(cfg: Settings, h: History, token: string, user: int, now: int)
    requires Collisionless(cfg) && cfg.lifetime < 0 && WellFormed(h) && Past(h, now)
    ensures Verify(cfg, Image(cfg, h), token, now, now) == Rejected
    ensures !Honoured(cfg, h, token, user, now)
  {
    VerifyIsJudge(cfg, h, token, now, now);
    forall i | HeldSince(h, token, user, i) ensures h[i] in h {}
  }

  lemma IssueThenRevokeAll(h: History)
    requires |h| == 2 && h[0].Issued? && h[1].RevokedAll? && h[1].user == h[0].user
    ensures Holding(h, h[0].token) == Some(h[0]) && LastMarker(h, h[0].user) == Some(h[1])
  {
  }

  lemma HonouredAtRevokeAll(cfg: Settings, h: History, r: int)
    requires cfg.lifetime >= 0 && |h| == 2 && h[0].Issued? && h[1].RevokedAll? && h[1].user == h[0].user
    requires h[0].stamp == h[0].storedAt <= h[1].stamp == h[1].storedAt == r && Alive(cfg, h[0].storedAt, r)
    ensures WellFormed(h) && Past(h, r)
    ensures Honoured(cfg, h, h[0].token, h[0].user, r) <==> h[0].stamp == r
  {
  }

  lemma MisjudgedRun(cfg: Settings, h: History, r: int)
    requires Collisionless(cfg) && cfg.lifetime >= 0
    requires |h| == 2 && h[0].Issued? && h[1].RevokedAll? && h[1].user == h[0].user
    requires h[0].stamp == h[0].storedAt <= h[1].stamp == h[1].storedAt == r && Alive(cfg, h[0].storedAt, r)
    requires !Judged(h[0].device, h[0].stamp, h[1].stamp)
    ensures WellFormed(h) && Past(h, r)
    ensures Verify(cfg, Image(cfg, h), h[0].token, r, r) == Accepted(h[0].user) <==> !Honoured(cfg, h, h[0].token, h[0].user, r)
  {
    IssueThenRevokeAll(h);
    VerifyIsJudge(cfg, h, h[0].token, r, r);
    HonouredAtRevokeAll(cfg, h, r);
  }

  /** For a device with a colon and any two instants of one century, a revoke-all at the later
      instant goes wrong: either a token of the earlier instant escapes it, or a token of the later
      instant is caught by it. */
  lemma ColonCounterexample(cfg: Settings, device: Option<string>, token: string, user: int, c: Instant, r: Instant)
    returns (h: History, created: Instant)
    requires Collisionless(cfg) && cfg.lifetime >= 0 && !ColonFree(device)
    requires c < r && SameCentury(c, r) && Alive(cfg, c, r)
    ensures created == c || created == r
    ensures |h| == 2 && h[0] == Issued(token, user, device, created, created) && h[1] == RevokedAll(user, r, r)
    ensures WellFormed(h) && Past(h, r)
    ensures Verify(cfg, Image(cfg, h), token, r, r) == Accepted(user) <==> created == c
    ensures Honoured(cfg, h, token, user, r) <==> created == r
  {
    ColonMisjudges(device, c, r);
    created := if Judged(device, c, r) then r else c;
    h := [Issued(token, user, device, created, created), RevokedAll(user, r, r)];
    HonouredAtRevokeAll(cfg, h, r);
    MisjudgedRun(cfg, h, r);
  }

  lemma LedgerKept(cfg: Settings, device: Option<string>, lo: int, hi: int)
    requires Collisionless(cfg) && (ColonFree(device) || cfg.lifetime < 0)
    ensures KeepsLedger(cfg, device, lo, hi)
  {
    forall h: History, token, user, now |
      WellFormed(h) && Past(h, now) && Within(h, lo, hi) && lo <= now <= hi && UsesDevice(h, token, device)
      ensures Verify(cfg, Image(cfg, h), token, now, now) == Accepted(user) <==> Honoured(cfg, h, token, user, now)
    {
      if cfg.lifetime < 0 {
        NegativeLifetime(cfg, h, token, user, now);
      } else {
        VerifyMatchesLedger(cfg, h, token, user, now);
      }
    }
  }

  lemma LedgerNotKept(cfg: Settings, device: Option<string>, lo: int, hi: int, h: History, now: int, token: string, user: int)
    requires WellFormed(h) && Past(h, now) && |h| == 2 && h[0].Issued? && h[1].RevokedAll? && h[0].device == device
    requires lo <= h[0].stamp && lo <= h[1].stamp && lo <= now <= hi
    requires Verify(cfg, Image(cfg, h), token, now, now) == Accepted(user) <==> !Honoured(cfg, h, token, user, now)
    ensures !KeepsLedger(cfg, device, lo, hi)
  {
    assert Within(h, lo, hi) && UsesDevice(h, token, device);
  }

  lemma ColonBreaksLedger(cfg: Settings, device: Option<string>, lo: int, hi: int, c: Instant, r: Instant, token: string, user: int)
    requires Collisionless(cfg) && cfg.lifetime >= 0 && !ColonFree(device)
    requires lo <= c < r <= hi && SameCentury(c, r) && Alive(cfg, c, r)
    ensures !KeepsLedger(cfg, device, lo, hi)
  {
    var h, created := ColonCounterexample(cfg, device, token, user, c, r);
    LedgerNotKept(cfg, device, lo, hi, h, r, token, user);
  }

  /** Colons are the exact limit of the ledger: in any window of time that holds two instants of
      one century it decides every run of a device if and only if the device's text has no colon
      (or tokens are dead on arrival). */
  lemma LedgerHoldsForColonFreeDevices(cfg: Settings, device: Option<string>, lo: int, hi: int, c: Instant, r: Instant)
    requires Collisionless(cfg) && lo <= c < r <= hi && SameCentury(c, r)
    ensures KeepsLedger(cfg, device, lo, hi) <==> ColonFree(device) || cfg.lifetime < 0
  {
    if ColonFree(device) || cfg.lifetime < 0 {
      LedgerKept(cfg, device, lo, hi);
    } else {
      var before := InstantBefore(r);
      CenturyOfWindow(c, before, r);
      ColonBreaksLedger(cfg, device, lo, hi, before, r, DeviceText(device), lo);
    }
  }
}
