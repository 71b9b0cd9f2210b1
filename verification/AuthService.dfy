/** `AuthenticationService` of src/auth/service.py, and the password-reset hook of
    src/auth/manager.py, one request at a time. The answers of `authenticate`, of the user table
    and of `write_token`, clock readings and drawn tokens are parameters. */
module AuthService {
  import opened Wrappers
  import opened IsoTime
  import opened TokenCodec
  import opened LocalCaches
  import opened TokenLedger
  import opened RefreshTokens
  import opened Audit
  import opened Sessions

  datatype User = User(id: int, active: bool)

  datatype ErrorCode = InvalidCredentials | TokenInvalid | UserInactive

  /** A returned pair of tokens, a return without a value, or a raised `BusinessException`. */
  datatype Response = Tokens(access: string, refresh: string) | Returned | Raised(code: ErrorCode)

  /** The record and the response of a refresh, given the verdict and the user table. */
  function RefreshOutcome(verdict: Verdict, users: map<int, bool>, spent: string, access: string, drawn: string,
                          device: Option<string>, stamp: Instant, now: int): (Record, Response)
  {
    if !verdict.Accepted? || verdict.user == 0 then (Failed(Refresh, None), Raised(TokenInvalid))
    else if verdict.user !in users || !users[verdict.user] then (Failed(Refresh, Some(verdict.user)), Raised(UserInactive))
    else (Rotated(verdict.user, spent, drawn, device, stamp, now), Tokens(access, drawn))
  }

  function LogoutOutcome(verdict: Verdict, spent: string): (Record, Response) {
    if !verdict.Accepted? || verdict.user == 0 then (Failed(Logout, None), Raised(TokenInvalid))
    else (LoggedOut(verdict.user, spent), Returned)
  }

  class AuthenticationService {
    const manager: RefreshTokenManager
    const audit: AuditService
    ghost var log: Log

    /** The log accounts for every token event and for every audit call. */
    ghost predicate Valid()
      reads this, manager, manager.cache, audit
    {
      && manager.Valid()
      && Sequential(log)
      && manager.history == Events(log)
      && audit.calls == Rows(log) && audit.Kept()
    }

    constructor (manager: RefreshTokenManager, audit: AuditService)
      requires manager.Valid() && manager.history == [] && audit.calls == [] && audit.Kept()
      ensures Valid() && log == [] && this.manager == manager && this.audit == audit
    {
      this.manager, this.audit := manager, audit;
      log := [];
    }

    method Login(found: Option<User>, access: string, drawn: string, userAgent: Option<string>,
                 stamp: Instant, now: int, fault: Fault) returns (r: Response)
      requires Valid() && NeverIssued(manager.history, drawn) && manager.clock <= stamp <= now
      modifies this, manager, manager.cache, audit
      ensures Valid()
      ensures r.Raised? <==> found.None? || !found.value.active
      ensures r.Raised? ==>
                && r == Raised(InvalidCredentials) && log == old(log) + [Failed(Action.Login, None)]
                && manager.history == old(manager.history) && manager.cache.store == old(manager.cache.store)
                && audit.calls == old(audit.calls) + [Row(Action.Login, Failure, None)]
                && audit.committed == Stored(old(audit.committed), [], Row(Action.Login, Failure, None), fault)
      ensures !r.Raised? ==>
                && r == Tokens(access, drawn)
                && log == old(log) + [LoggedIn(found.value.id, drawn, userAgent, stamp, now)]
                && manager.history == old(manager.history) + [Issued(drawn, found.value.id, userAgent, stamp, now)]
                && audit.calls == old(audit.calls) + [Row(Action.Login, Success, Some(found.value.id))]
                && audit.committed == Stored(old(audit.committed), [], Row(Action.Login, Success, Some(found.value.id)), fault)
      ensures !r.Raised? ==> manager.clock == now
    {
      if found.None? || !found.value.active {
        Refuse(Action.Login, None, fault);
        return Raised(InvalidCredentials);
      }
      var user := found.value;
      var refreshToken := manager.CreateRefreshToken(drawn, user.id, userAgent, stamp, now);
      Finish(Row(Action.Login, Success, Some(user.id)), fault, LoggedIn(user.id, drawn, userAgent, stamp, now));
      return Tokens(access, refreshToken);
    }

    method Refresh(token: string, users: map<int, bool>, access: string, drawn: string, userAgent: Option<string>,
                   g1: int, g2: int, stamp: Instant, now: int, fault: Fault) returns (r: Response)
      requires Valid() && NeverIssued(manager.history, drawn)
      requires manager.clock <= g1 <= g2 <= stamp <= now
      modifies this, manager, manager.cache, audit
      ensures Valid()
      ensures var verdict := Verify(manager.settings, Image(manager.settings, old(manager.history)), token, g1, g2);
              var outcome := RefreshOutcome(verdict, users, token, access, drawn, userAgent, stamp, now);
              r == outcome.1 && log == old(log) + [outcome.0]
      ensures r.Tokens? ==>
                && r == Tokens(access, drawn) && Holding(old(manager.history), token).Some?
                && var user := Holding(old(manager.history), token).value.user;
                && user != 0 && user in users && users[user]
                && manager.history == old(manager.history) + [Issued(drawn, user, userAgent, stamp, now)] + [Revoked(token)]
                && audit.calls == old(audit.calls) + [Row(Action.Refresh, Success, Some(user))]
                && audit.committed == Stored(old(audit.committed), [], Row(Action.Refresh, Success, Some(user)), fault)
      ensures r.Tokens? ==> manager.clock == now
      ensures r.Raised? ==>
                && (r.code == TokenInvalid || (r.code == UserInactive && Holding(old(manager.history), token).Some?))
                && manager.history == old(manager.history)
                && Purge(manager.cache.store, g2) == Purge(old(manager.cache.store), g2)
                && var actor := if r.code == TokenInvalid then None else Some(Holding(old(manager.history), token).value.user);
                && audit.calls == old(audit.calls) + [Row(Action.Refresh, Failure, actor)]
                && audit.committed == Stored(old(audit.committed), [], Row(Action.Refresh, Failure, actor), fault)
      ensures g1 == g2 && PlainDevice(old(manager.history), token) ==>
                var user := HonouredUser(manager.settings, old(manager.history), token, g1);
                && (r == Raised(TokenInvalid) <==> user == None || user == Some(0))
                && (r == Raised(UserInactive) <==> user.Some? && user != Some(0) && !(user.value in users && users[user.value]))
    {
      var verdict := manager.VerifyRefreshToken(token, g1, g2);
      var userId := if verdict.Accepted? then verdict.user else 0;
      if userId == 0 {
        Refuse(Action.Refresh, None, fault);
        return Raised(TokenInvalid);
      }
      if userId !in users || !users[userId] {
        Refuse(Action.Refresh, Some(userId), fault);
        return Raised(UserInactive);
      }
      var newToken := Rotate(token, userId, drawn, userAgent, stamp, now, fault);
      return Tokens(access, newToken);
    }

    /** The writing half of a refresh: the new token, the end of the old one, the audit row. */
    method Rotate(token: string, userId: int, drawn: string, userAgent: Option<string>, stamp: Instant, now: int, fault: Fault)
      returns (newToken: string)
      requires Valid() && NeverIssued(manager.history, drawn) && manager.clock <= stamp <= now
      requires Holding(manager.history, token).Some? && Holding(manager.history, token).value.user == userId
      modifies this, manager, manager.cache, audit
      ensures Valid() && newToken == drawn
      ensures log == old(log) + [Rotated(userId, token, drawn, userAgent, stamp, now)]
      ensures manager.history == old(manager.history) + [Issued(drawn, userId, userAgent, stamp, now)] + [Revoked(token)]
      ensures audit.calls == old(audit.calls) + [Row(Action.Refresh, Success, Some(userId))]
      ensures audit.committed == Stored(old(audit.committed), [], Row(Action.Refresh, Success, Some(userId)), fault)
      ensures manager.clock == now
    {
      ghost var record := Rotated(userId, token, drawn, userAgent, stamp, now);
      RotationStep(log, record);
      newToken := manager.CreateRefreshToken(drawn, userId, userAgent, stamp, now);
      manager.RevokeToken(token);
      audit.Log(Row(Action.Refresh, Success, Some(userId)), fault);
      log := log + [record];
    }

    method Logout(token: string, g1: int, g2: int, fault: Fault) returns (r: Response)
      requires Valid() && manager.clock <= g1 <= g2
      modifies this, manager, manager.cache, audit
      ensures Valid()
      ensures var verdict := Verify(manager.settings, Image(manager.settings, old(manager.history)), token, g1, g2);
              var outcome := LogoutOutcome(verdict, token);
              r == outcome.1 && log == old(log) + [outcome.0]
      ensures r == Returned || r == Raised(TokenInvalid)
      ensures r.Returned? ==>
                && Holding(old(manager.history), token).Some?
                && var user := Holding(old(manager.history), token).value.user;
                && user != 0 && manager.history == old(manager.history) + [Revoked(token)]
                && audit.calls == old(audit.calls) + [Row(Action.Logout, Success, Some(user))]
                && audit.committed == Stored(old(audit.committed), [], Row(Action.Logout, Success, Some(user)), fault)
      ensures r.Raised? ==>
                && manager.history == old(manager.history)
                && Purge(manager.cache.store, g2) == Purge(old(manager.cache.store), g2)
                && audit.calls == old(audit.calls) + [Row(Action.Logout, Failure, None)]
                && audit.committed == Stored(old(audit.committed), [], Row(Action.Logout, Failure, None), fault)
      ensures g1 == g2 && PlainDevice(old(manager.history), token) ==>
                var user := HonouredUser(manager.settings, old(manager.history), token, g1);
                r == Returned <==> user.Some? && user != Some(0)
    {
      var verdict := manager.VerifyRefreshToken(token, g1, g2);
      var userId := if verdict.Accepted? then verdict.user else 0;
      if userId == 0 {
        Refuse(Action.Logout, None, fault);
        return Raised(TokenInvalid);
      }
      manager.RevokeToken(token);
      Finish(Row(Action.Logout, Success, Some(userId)), fault, LoggedOut(userId, token));
      return Returned;
    }

    /** `UserManager.on_after_reset_password`. */
    method OnAfterResetPassword(user: User, stamp: Instant, now: int)
      requires Valid() && manager.clock <= stamp <= now
      modifies this, manager, manager.cache
      ensures Valid() && log == old(log) + [PasswordReset(user.id, stamp, now)]
      ensures manager.history == old(manager.history) + [RevokedAll(user.id, stamp, now)]
      ensures manager.clock == now
    {
      manager.RevokeAllUserTokens(user.id, stamp, now);
      ResetStep(log, user.id, stamp, now);
      log := log + [PasswordReset(user.id, stamp, now)];
    }

    /** The audit call that ends every successful path, and the log's record of the request. */
    method Finish(row: Row, fault: Fault, ghost record: Record)
      requires manager.Valid() && Sequential(log) && Fits(Events(log), record) && RowOf(record) == [row]
      requires manager.history == Events(log) + Effects(record) && audit.calls == Rows(log) && audit.Kept()
      modifies this`log, audit
      ensures Valid() && log == old(log) + [record]
      ensures audit.calls == old(audit.calls) + [row]
      ensures audit.committed == Stored(old(audit.committed), [], row, fault)
    {
      LogStep(log, record);
      audit.Log(row, fault);
      log := log + [record];
    }

    /** The audit call of a path that raises. */
    method Refuse(action: Action, actor: Option<int>, fault: Fault)
      requires Valid()
      modifies this`log, audit
      ensures Valid() && log == old(log) + [Failed(action, actor)]
      ensures audit.calls == old(audit.calls) + [Row(action, Failure, actor)]
      ensures audit.committed == Stored(old(audit.committed), [], Row(action, Failure, actor), fault)
    {
      FailureStep(log, action, actor);
      audit.Log(Row(action, Failure, actor), fault);
      log := log + [Failed(action, actor)];
    }
  }

  lemma RotatedEffects(h: History, r: Record)
    requires r.Rotated?
    ensures h + Effects(r) == h + [Issued(r.token, r.user, r.device, r.stamp, r.storedAt)] + [Revoked(r.spent)]
  {
  }

  /** After a refresh its new token is held by the spent token's user, and the spent one by nobody. */
  lemma RotatedHolding(h: History, e: Event, spent: string)
    requires e.Issued? && NeverIssued(h, e.token) && Holding(h, spent).Some?
    ensures Holding(h + [e] + [Revoked(spent)], e.token) == Some(e)
    ensures Holding(h + [e] + [Revoked(spent)], spent) == None
  {
    assert Holding(h, spent).value in h;
    assert (h + [e] + [Revoked(spent)])[..|h| + 1] == h + [e] && (h + [e])[..|h|] == h;
  }

  /** What a rotation adds to history and rows. */
  lemma RotationStep(log: Log, r: Record)
    requires Sequential(log) && r.Rotated? && Fits(Events(log), r)
    ensures var e := Issued(r.token, r.user, r.device, r.stamp, r.storedAt);
            Events(log + [r]) == Events(log) + [e] + [Revoked(r.spent)]
    ensures Rows(log + [r]) == Rows(log) + [Row(Action.Refresh, Success, Some(r.user))] && Sequential(log + [r])
  {
    LogStep(log, r);
    RotatedEffects(Events(log), r);
  }

  /** After a rotation the spent token is gone and the new one is held. */
  lemma RotationMovesTheToken(h: History, r: Record)
    requires r.Rotated? && Fits(h, r)
    ensures Holding(h + Effects(r), r.spent).None? && Holding(h + Effects(r), r.token).Some?
  {
  }

  /** A refresh hands out tokens exactly when the ledger honours the token for an active user,
      and a logout goes through exactly when it honours it for some user; ids are non-zero. */
  lemma OutcomesFollowLedger(cfg: Settings, h: History, token: string, now: int, users: map<int, bool>,
                             access: string, drawn: string, device: Option<string>, stamp: Instant, at: int)
    requires Collisionless(cfg) && WellFormed(h) && PlainDevice(h, token)
    ensures var verdict := Verify(cfg, Image(cfg, h), token, now, now);
            var response := RefreshOutcome(verdict, users, token, access, drawn, device, stamp, at).1;
            && (response == Tokens(access, drawn)
                <==> exists u :: u != 0 && u in users && users[u] && Honoured(cfg, h, token, u, now))
            && (response == Raised(TokenInvalid) <==> forall u | Honoured(cfg, h, token, u, now) :: u == 0)
            && (response == Raised(UserInactive)
                <==> exists u :: u != 0 && !(u in users && users[u]) && Honoured(cfg, h, token, u, now))
            && (LogoutOutcome(verdict, token).1.Returned? <==> exists u :: u != 0 && Honoured(cfg, h, token, u, now))
  {
    var verdict, honoured := Verify(cfg, Image(cfg, h), token, now, now), iset u | Honoured(cfg, h, token, u, now);
    forall u ensures u in honoured <==> verdict == Accepted(u) {
      VerifyMatchesLedger(cfg, h, token, u, now);
    }
    OutcomesFollowVerdict(verdict, honoured, token, users, access, drawn, device, stamp, at);
  }

  lemma OutcomesFollowVerdict(verdict: Verdict, honoured: iset<int>, token: string, users: map<int, bool>,
                              access: string, drawn: string, device: Option<string>, stamp: Instant, at: int)
    requires forall u :: u in honoured <==> verdict == Accepted(u)
    ensures var response := RefreshOutcome(verdict, users, token, access, drawn, device, stamp, at).1;
            && (response == Tokens(access, drawn) <==> exists u :: u in honoured && u != 0 && u in users && users[u])
            && (response == Raised(TokenInvalid) <==> forall u | u in honoured :: u == 0)
            && (response == Raised(UserInactive) <==> exists u :: u in honoured && u != 0 && !(u in users && users[u]))
    ensures LogoutOutcome(verdict, token).1 == Returned <==> exists u :: u in honoured && u != 0
  {
    if verdict.Accepted? { assert verdict.user in honoured; }
  }
}
