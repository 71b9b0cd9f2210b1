/** Runs of the service in which requests do not overlap. A log lists the completed requests;
    it determines the token history and the audit rows. */
module Sessions {
  import opened Wrappers
  import opened IsoTime
  import opened Audit
  import opened TokenLedger

  datatype Record =
    | LoggedIn(user: int, token: string, device: Option<string>, stamp: Instant, storedAt: int)
    | Rotated(user: int, spent: string, token: string, device: Option<string>, stamp: Instant, storedAt: int)
    | LoggedOut(user: int, spent: string)
    | Failed(action: Action, actor: Option<int>)
    | PasswordReset(user: int, stamp: Instant, storedAt: int)

  type Log = seq<Record>

  /** What one request does to tokens. `refresh` creates before it revokes. */
  function Effects(r: Record): History {
    match r
    case LoggedIn(user, token, device, stamp, storedAt) => [Issued(token, user, device, stamp, storedAt)]
    case Rotated(user, spent, token, device, stamp, storedAt) =>
      [Issued(token, user, device, stamp, storedAt), Revoked(spent)]
    case LoggedOut(_, spent) => [Revoked(spent)]
    case Failed(_, _) => []
    case PasswordReset(user, stamp, storedAt) => [RevokedAll(user, stamp, storedAt)]
  }

  /** The audit row of one request; a password reset is not audited here. */
  function RowOf(r: Record): seq<Row> {
    match r
    case LoggedIn(user, _, _, _, _) => [Row(Login, Success, Some(user))]
    case Rotated(user, _, _, _, _, _) => [Row(Refresh, Success, Some(user))]
    case LoggedOut(user, _) => [Row(Logout, Success, Some(user))]
    case Failed(action, actor) => [Row(action, Failure, actor)]
    case PasswordReset(_, _, _) => []
  }

  function Events(log: Log): History {
    if log == [] then [] else Events(log[..|log| - 1]) + Effects(log[|log| - 1])
  }

  function Rows(log: Log): seq<Row> {
    if log == [] then [] else Rows(log[..|log| - 1]) + RowOf(log[|log| - 1])
  }

  /** The request gets a new token and finds the token it consumes held by its user. */
  ghost predicate Fits(h: History, r: Record) {
    && ((r.LoggedIn? || r.Rotated?) ==> NeverIssued(h, r.token))
    && ((r.Rotated? || r.LoggedOut?) ==> Holding(h, r.spent).Some? && Holding(h, r.spent).value.user == r.user)
  }

  /** Every request completed before the next began. */
  ghost predicate Sequential(log: Log) {
    log == [] || (Sequential(log[..|log| - 1]) && Fits(Events(log[..|log| - 1]), log[|log| - 1]))
  }

  lemma LogStep(log: Log, r: Record)
    ensures Events(log + [r]) == Events(log) + Effects(r) && Rows(log + [r]) == Rows(log) + RowOf(r)
    ensures Sequential(log + [r]) <==> Sequential(log) && Fits(Events(log), r)
  {
  }

  lemma FailureStep(log: Log, action: Action, actor: Option<int>)
    requires Sequential(log)
    ensures Events(log + [Failed(action, actor)]) == Events(log)
    ensures Rows(log + [Failed(action, actor)]) == Rows(log) + [Row(action, Failure, actor)]
    ensures Sequential(log + [Failed(action, actor)])
  {
    LogStep(log, Failed(action, actor));
  }

  lemma ResetStep(log: Log, user: int, stamp: Instant, storedAt: int)
    requires Sequential(log)
    ensures Events(log + [PasswordReset(user, stamp, storedAt)]) == Events(log) + [RevokedAll(user, stamp, storedAt)]
    ensures Rows(log + [PasswordReset(user, stamp, storedAt)]) == Rows(log)
    ensures Sequential(log + [PasswordReset(user, stamp, storedAt)])
  {
    LogStep(log, PasswordReset(user, stamp, storedAt));
  }

  /** Issued and not consumed. */
  function Outstanding(h: History): set<string> {
    if h == [] then {}
    else
      var before, last := Outstanding(h[..|h| - 1]), h[|h| - 1];
      match last
      case Issued(t, _, _, _, _) => before + {t}
      case Revoked(t) => before - {t}
      case RevokedAll(_, _, _) => before
  }

  lemma {:induction false} OutstandingIsHeld(h: History, token: string)
    ensures token in Outstanding(h) <==> Holding(h, token).Some?
  {
    if h != [] { OutstandingIsHeld(h[..|h| - 1], token); }
  }

  lemma {:induction false} OutstandingWasIssued(h: History, token: string)
    requires NeverIssued(h, token)
    ensures token !in Outstanding(h)
  {
    OutstandingIsHeld(h, token);
  }

  lemma OutstandingAfter(h: History, r: Record)
    ensures Outstanding(h + Effects(r)) ==
            Outstanding(h)
            + (if r.LoggedIn? || r.Rotated? then {r.token} else {})
            - (if r.Rotated? || r.LoggedOut? then {r.spent} else {})
  {
    if r.Failed? {
      assert h + Effects(r) == h;
    } else if r.Rotated? {
      var all := h + Effects(r);
      assert all[..|all| - 1][..|h|] == h && all[..|all| - 1] == h + [Effects(r)[0]];
    } else {
      assert (h + Effects(r))[..|h|] == h;
    }
  }

  // ---- Conservation ---------------------------------------------------------------------

  function Gain(r: Record): int {
    if r.LoggedIn? then 1 else if r.LoggedOut? then -1 else 0
  }

  lemma OutstandingGrowth(h: History, r: Record)
    requires Fits(h, r)
    ensures |Outstanding(h + Effects(r))| == |Outstanding(h)| + Gain(r)
  {
    var held := Outstanding(h);
    OutstandingAfter(h, r);
    if r.LoggedIn? || r.Rotated? { OutstandingWasIssued(h, r.token); }
    if r.Rotated? || r.LoggedOut? { OutstandingIsHeld(h, r.spent); }
    if r.LoggedIn? {
      assert Outstanding(h + Effects(r)) == held + {r.token};
    } else if r.Rotated? {
      assert Outstanding(h + Effects(r)) == held - {r.spent} + {r.token};
    } else if r.LoggedOut? {
      assert Outstanding(h + Effects(r)) == held - {r.spent};
    } else {
      assert Outstanding(h + Effects(r)) == held;
    }
  }

  function Balance(rows: seq<Row>): int {
    Count(rows, Login, Success) - Count(rows, Logout, Success)
  }

  lemma BalanceGrowth(rows: seq<Row>, r: Record)
    ensures Balance(rows + RowOf(r)) == Balance(rows) + Gain(r)
  {
    if r.PasswordReset? {
      assert rows + RowOf(r) == rows;
    } else {
      assert (rows + RowOf(r))[..|rows|] == rows;
    }
  }

  /** The number of unconsumed tokens is the number of successful logins less the number of
      successful logouts, both read off the audit rows. */
  lemma {:induction false} TokensAreConserved(log: Log)
    requires Sequential(log)
    ensures |Outstanding(Events(log))| == Count(Rows(log), Login, Success) - Count(Rows(log), Logout, Success)
  {
    if log != [] {
      var before, last := log[..|log| - 1], log[|log| - 1];
      TokensAreConserved(before);
      OutstandingGrowth(Events(before), last);
      BalanceGrowth(Rows(before), last);
    }
  }

  /** On the table itself the counts can only fall short, and agree when no row was lost. */
  lemma TableCountsTokens(log: Log, table: seq<Row>)
    requires Sequential(log) && Subsequence(table, Rows(log))
    ensures |Outstanding(Events(log))| <= Count(Rows(log), Login, Success) - Count(table, Logout, Success)
    ensures Count(table, Login, Success) <= |Outstanding(Events(log))| + Count(Rows(log), Logout, Success)
    ensures |table| == |Rows(log)| ==>
              |Outstanding(Events(log))| == Count(table, Login, Success) - Count(table, Logout, Success)
  {
    TokensAreConserved(log);
    SubsequenceCounts(table, Rows(log), Login, Success);
    SubsequenceCounts(table, Rows(log), Logout, Success);
  }

  /** The tokens that a verification at `now` accepts. */
  function Live(cfg: Settings, h: History, now: int): set<string> {
    set t | t in Outstanding(h) && Verify(cfg, Image(cfg, h), t, now, now).Accepted?
  }

  lemma AcceptedIsOutstanding(cfg: Settings, h: History, token: string, g1: int, g2: int)
    requires Collisionless(cfg) && Verify(cfg, Image(cfg, h), token, g1, g2).Accepted?
    ensures token in Outstanding(h)
  {
    VerifyIsJudge(cfg, h, token, g1, g2);
    OutstandingIsHeld(h, token);
  }

  lemma {:induction false} NoResetNoMarker(log: Log, user: int)
    requires forall r | r in log :: !r.PasswordReset?
    ensures LastMarker(Events(log), user).None?
  {
    if log != [] {
      var before, last := log[..|log| - 1], log[|log| - 1];
      NoResetNoMarker(before, user);
      assert last in log;
      NoMarkerAfter(Events(before), Effects(last), user);
    }
  }

  lemma {:induction false} NoMarkerAfter(h: History, more: History, user: int)
    requires LastMarker(h, user).None? && forall e | e in more :: !e.RevokedAll?
    ensures LastMarker(h + more, user).None?
  {
    if more == [] {
      assert h + more == h;
    } else {
      assert (h + more)[..|h + more| - 1] == h + more[..|more| - 1];
      NoMarkerAfter(h, more[..|more| - 1], user);
    }
  }

  /** While nothing expires and no password is reset, exactly the unconsumed tokens are live. */
  lemma LiveTokensAreConserved(cfg: Settings, log: Log, now: int)
    requires Collisionless(cfg) && Sequential(log)
    requires forall r | r in log :: !r.PasswordReset?
    requires forall e | e in Events(log) && e.Issued? :: Alive(cfg, e.storedAt, now)
    ensures |Live(cfg, Events(log), now)| == Count(Rows(log), Login, Success) - Count(Rows(log), Logout, Success)
  {
    var h := Events(log);
    TokensAreConserved(log);
    forall t | t in Outstanding(h) ensures t in Live(cfg, h, now) {
      OutstandingIsHeld(h, t);
      NoResetNoMarker(log, Holding(h, t).value.user);
      VerifyIsJudge(cfg, h, t, now, now);
    }
    assert Live(cfg, h, now) == Outstanding(h);
  }

  // ---- Lineage --------------------------------------------------------------------------

  /** The login token from which `token` descends through refreshes. */
  function Root(log: Log, token: string): Option<string> {
    if log == [] then None
    else
      var before, last := log[..|log| - 1], log[|log| - 1];
      if last.LoggedIn? && last.token == token then Some(token)
      else if last.Rotated? && last.token == token then Root(before, last.spent)
      else Root(before, token)
  }

  lemma {:induction false} RootWasIssued(log: Log, token: string)
    requires Root(log, token).Some?
    ensures !NeverIssued(Events(log), Root(log, token).value)
  {
    var before, last := log[..|log| - 1], log[|log| - 1];
    if last.LoggedIn? && last.token == token {
      assert Effects(last)[0] in Events(log);
    } else {
      RootWasIssued(before, if last.Rotated? && last.token == token then last.spent else token);
    }
  }

  lemma {:induction false} IssuedHasRoot(log: Log, token: string)
    requires Sequential(log) && !NeverIssued(Events(log), token)
    ensures Root(log, token).Some?
  {
    var before, last := log[..|log| - 1], log[|log| - 1];
    if last.Rotated? && last.token == token {
      var e := Holding(Events(before), last.spent).value;
      assert e in Events(before);
      IssuedHasRoot(before, last.spent);
    } else if !(last.LoggedIn? && last.token == token) {
      IssuedHasRoot(before, token);
    }
  }

  ghost predicate LoginIssued(log: Log, token: string) {
    exists r :: r in log && r.LoggedIn? && r.token == token
  }

  ghost predicate RefreshTurned(log: Log, spent: string, token: string) {
    exists r :: r in log && r.Rotated? && r.spent == spent && r.token == token
  }

  /** A login issued the first token of the path, and a refresh turned each one into the next. */
  ghost predicate Descent(log: Log, path: seq<string>) {
    && path != []
    && (if |path| == 1 then LoginIssued(log, path[0])
        else Descent(log, path[..|path| - 1]) && RefreshTurned(log, path[|path| - 2], path[|path| - 1]))
  }

  lemma IssuedBefore(log: Log, r: Record)
    requires r in log && (r.LoggedIn? || r.Rotated?)
    ensures !NeverIssued(Events(log), r.token)
  {
    var k :| 0 <= k < |log| && log[k] == r;
    EventsOfRecord(log, k);
    assert Effects(r)[0] in Events(log);
  }

  lemma {:induction false} EventsOfRecord(log: Log, k: nat)
    requires k < |log|
    ensures forall e | e in Effects(log[k]) :: e in Events(log)
  {
    if k < |log| - 1 { EventsOfRecord(log[..|log| - 1], k); }
  }

  lemma {:induction false} RootOfRecord(log: Log, r: Record)
    requires Sequential(log) && r in log && (r.LoggedIn? || r.Rotated?)
    ensures r.LoggedIn? ==> Root(log, r.token) == Some(r.token)
    ensures r.Rotated? ==> Root(log, r.token) == Root(log, r.spent)
  {
    var before, last := log[..|log| - 1], log[|log| - 1];
    if r in before {
      RootOfRecord(before, r);
      IssuedBefore(before, r);
      if r.Rotated? {
        SpentWasIssued(before, r);
      }
    } else {
      assert r == last;
      if r.Rotated? { assert Holding(Events(before), r.spent).value in Events(before); }
    }
  }

  lemma {:induction false} SpentWasIssued(log: Log, r: Record)
    requires Sequential(log) && r in log && r.Rotated?
    ensures !NeverIssued(Events(log), r.spent)
  {
    var before, last := log[..|log| - 1], log[|log| - 1];
    var e: Event;
    if r in before {
      SpentWasIssued(before, r);
      e :| e in Events(before) && e.Issued? && e.token == r.spent;
    } else {
      e := Holding(Events(before), r.spent).value;
    }
    assert e in Events(log);
  }

  lemma {:induction false} DescentHasRoot(log: Log, path: seq<string>)
    requires Sequential(log) && Descent(log, path)
    ensures Root(log, path[|path| - 1]) == Some(path[0])
  {
    var n := |path| - 1;
    if n == 0 {
      var r :| r in log && r.LoggedIn? && r.token == path[0];
      RootOfRecord(log, r);
    } else {
      var r :| r in log && r.Rotated? && r.spent == path[n - 1] && r.token == path[n];
      RootOfRecord(log, r);
      DescentHasRoot(log, path[..n]);
    }
  }

  lemma {:induction false} DescentInLonger(log: Log, last: Record, path: seq<string>)
    requires Descent(log, path)
    ensures Descent(log + [last], path)
  {
    forall r | r in log ensures r in log + [last] {}
    if |path| > 1 { DescentInLonger(log, last, path[..|path| - 1]); }
  }

  lemma {:induction false} RootHasDescent(log: Log, token: string) returns (path: seq<string>)
    requires Root(log, token).Some?
    ensures Descent(log, path) && path[0] == Root(log, token).value && path[|path| - 1] == token
  {
    var before, last := log[..|log| - 1], log[|log| - 1];
    assert log == before + [last];
    if last.LoggedIn? && last.token == token {
      path := [token];
      assert last in log;
    } else if last.Rotated? && last.token == token {
      var front := RootHasDescent(before, last.spent);
      DescentInLonger(before, last, front);
      path := front + [token];
      assert path[..|path| - 1] == front && last in log && RefreshTurned(log, last.spent, token);
    } else {
      path := RootHasDescent(before, token);
      DescentInLonger(before, last, path);
    }
  }

  /** The root of a token is the login token at the start of its path of refreshes. */
  lemma RootIsDescent(log: Log, token: string, root: string)
    requires Sequential(log)
    ensures Root(log, token) == Some(root) <==>
              exists path :: Descent(log, path) && path[0] == root && path[|path| - 1] == token
  {
    if Root(log, token) == Some(root) { var path := RootHasDescent(log, token); }
    if path :| Descent(log, path) && path[0] == root && path[|path| - 1] == token { DescentHasRoot(log, path); }
  }

  /** Each login starts a chain in which at most one token is unconsumed at any time. */
  lemma {:induction false} OneTokenPerChain(log: Log, a: string, b: string)
    requires Sequential(log) && a in Outstanding(Events(log)) && b in Outstanding(Events(log))
    requires Root(log, a) == Root(log, b)
    ensures a == b
  {
    var before, last := log[..|log| - 1], log[|log| - 1];
    var h := Events(before);
    OutstandingAfter(h, last);
    if last.LoggedIn? {
      if a != b {
        var other := if a == last.token then b else a;
        if a == last.token || b == last.token {
          RootWasIssued(log, other);
          RootWasIssued(before, other);
        } else {
          OneTokenPerChain(before, a, b);
        }
      }
    } else if last.Rotated? {
      OutstandingIsHeld(h, last.spent);
      OneTokenPerChain(before, if a == last.token then last.spent else a, if b == last.token then last.spent else b);
    } else {
      OneTokenPerChain(before, a, b);
    }
  }

  /** Two tokens of one chain are never both accepted, whatever the readings. */
  lemma OneLiveTokenPerChain(cfg: Settings, log: Log, a: string, b: string, g1: int, g2: int, k1: int, k2: int)
    requires Collisionless(cfg) && Sequential(log) && Root(log, a) == Root(log, b)
    requires Verify(cfg, Image(cfg, Events(log)), a, g1, g2).Accepted?
    requires Verify(cfg, Image(cfg, Events(log)), b, k1, k2).Accepted?
    ensures a == b
  {
    AcceptedIsOutstanding(cfg, Events(log), a, g1, g2);
    AcceptedIsOutstanding(cfg, Events(log), b, k1, k2);
    OneTokenPerChain(log, a, b);
  }

  /** The chain of `root` holds no token. */
  ghost predicate ChainEnded(log: Log, root: string) {
    forall t | t in Outstanding(Events(log)) :: Root(log, t) != Some(root)
  }

  /** A logout ends the chain of the token it was given. */
  lemma LogoutEndsChain(log: Log)
    requires Sequential(log) && log != [] && log[|log| - 1].LoggedOut?
    ensures var spent := log[|log| - 1].spent;
            Root(log, spent).Some? && ChainEnded(log, Root(log, spent).value)
  {
    var before, last := log[..|log| - 1], log[|log| - 1];
    var h := Events(before);
    OutstandingAfter(h, last);
    OutstandingIsHeld(h, last.spent);
    assert Holding(h, last.spent).value in h;
    IssuedHasRoot(before, last.spent);
    forall t | t in Outstanding(Events(log)) && Root(log, t) == Root(log, last.spent)
      ensures false
    {
      OneTokenPerChain(before, t, last.spent);
    }
  }

  lemma SplitLast(log: Log, later: Log) returns (before: Log, last: Record)
    requires later != [] && Sequential(log + later)
    ensures before == log + later[..|later| - 1] && last == later[|later| - 1]
    ensures log + later == before + [last]
    ensures Sequential(before) && Fits(Events(before), last)
    ensures Events(log + later) == Events(before) + Effects(last)
  {
    var all := log + later;
    before, last := log + later[..|later| - 1], later[|later| - 1];
    assert all[..|all| - 1] == before && all[|all| - 1] == last;
  }

  lemma NextKeepsChainEnded(before: Log, last: Record, root: string)
    requires Fits(Events(before), last) && ChainEnded(before, root) && !NeverIssued(Events(before), root)
    requires Events(before + [last]) == Events(before) + Effects(last)
    ensures ChainEnded(before + [last], root) && !NeverIssued(Events(before + [last]), root)
  {
    var all := before + [last];
    assert all[..|all| - 1] == before;
    OutstandingAfter(Events(before), last);
    if last.Rotated? { OutstandingIsHeld(Events(before), last.spent); }
    var e :| e in Events(before) && e.Issued? && e.token == root;
    assert e in Events(all);
  }

  /** No later request revives an ended chain. */
  lemma {:induction false} EndedChainStaysEnded(log: Log, later: Log, root: string)
    requires Sequential(log + later) && ChainEnded(log, root) && !NeverIssued(Events(log), root)
    ensures ChainEnded(log + later, root) && !NeverIssued(Events(log + later), root)
    decreases |later|
  {
    if later == [] {
      assert log + later == log;
    } else {
      var before, last := SplitLast(log, later);
      EndedChainStaysEnded(log, later[..|later| - 1], root);
      NextKeepsChainEnded(before, last, root);
    }
  }

  /** A token consumed by a refresh or a logout is never accepted again. */
  lemma {:induction false} ConsumedStaysConsumed(log: Log, later: Log, token: string)
    requires Sequential(log + later) && token !in Outstanding(Events(log)) && !NeverIssued(Events(log), token)
    ensures token !in Outstanding(Events(log + later)) && !NeverIssued(Events(log + later), token)
    decreases |later|
  {
    if later == [] {
      assert log + later == log;
    } else {
      var before, last := SplitLast(log, later);
      ConsumedStaysConsumed(log, later[..|later| - 1], token);
      OutstandingAfter(Events(before), last);
      var e :| e in Events(before) && e.Issued? && e.token == token;
      assert e in Events(log + later);
    }
  }

  lemma {:induction false} SequentialFront(log: Log, later: Log)
    requires Sequential(log + later)
    ensures Sequential(log)
    decreases |later|
  {
    if later == [] {
      assert log + later == log;
    } else {
      var before, last := SplitLast(log, later);
      SequentialFront(log, later[..|later| - 1]);
    }
  }

  lemma ConsumedNeverAccepted(cfg: Settings, log: Log, r: Record, later: Log, g1: int, g2: int)
    requires Collisionless(cfg) && Sequential(log + [r] + later)
    requires r.Rotated? || r.LoggedOut?
    ensures !Verify(cfg, Image(cfg, Events(log + [r] + later)), r.spent, g1, g2).Accepted?
  {
    var now := log + [r];
    SequentialFront(now, later);
    assert now[..|now| - 1] == log;
    var e := Holding(Events(log), r.spent).value;
    assert e in Events(log) && e in Events(now);
    OutstandingAfter(Events(log), r);
    ConsumedStaysConsumed(now, later, r.spent);
    if Verify(cfg, Image(cfg, Events(now + later)), r.spent, g1, g2).Accepted? {
      AcceptedIsOutstanding(cfg, Events(now + later), r.spent, g1, g2);
    }
  }
}
