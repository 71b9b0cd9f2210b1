/** What holds of every interleaved run, and two runs that only interleaving allows. */
module InterleavedRuns {
  import opened Wrappers
  import opened Text
  import opened IsoTime
  import opened RedisKeys
  import opened TokenCodec
  import opened LocalCaches
  import opened TokenLedger
  import opened Interleaving

  // ---- What holds of every run ----------------------------------------------------------

  ghost predicate Consumed(job: Job, token: string) {
    !job.request.Login? && job.request.token == token && job.stage.Finished?
  }

  lemma HeldMeansNotRevoked(h: History, seen: nat, token: string, k: nat)
    requires WellFormed(h) && seen <= |h| && Holding(h[..seen], token).Some?
    requires k < |h| && h[k] == Revoked(token) && !NeverIssued(h[..k], token)
    ensures seen <= k
  {
    var p := h[..seen];
    HoldingIffHeld(p, token, Holding(p, token).value.user);
    var i :| HeldSince(p, token, Holding(p, token).value.user, i);
    var e :| e in h[..k] && e.Issued? && e.token == token;
    var j :| 0 <= j < k && h[j] == e;
    forall x | 0 <= x < seen ensures p[x] == h[x] {}
    assert i == j;
  }

  /** A successful refresh or logout read the token before the first revocation after its issue. */
  lemma SuccessReadBeforeRevocation(cfg: Settings, start: int, actions: seq<Action>, s: System, id: nat,
        token: string, k: nat)
    requires Collisionless(cfg) && Run(cfg, Initial(start), actions) == Some(s)
    requires id in s.jobs && Consumed(s.jobs[id], token)
    requires k < |s.history| && s.history[k] == Revoked(token) && !NeverIssued(s.history[..k], token)
    ensures s.jobs[id].seen <= k
  {
    RunsKeepInv(cfg, start, actions, s);
    HeldMeansNotRevoked(s.history, s.jobs[id].seen, token, k);
  }

  /** Two requests that both consumed one token overlapped: each read it before the other revoked
      it. Requests that do not overlap therefore use a token once. */
  lemma ConsumersOverlap(cfg: Settings, start: int, actions: seq<Action>, s: System, a: nat, b: nat, token: string)
    requires Collisionless(cfg) && Run(cfg, Initial(start), actions) == Some(s)
    requires a in s.jobs && b in s.jobs && Consumed(s.jobs[a], token) && Consumed(s.jobs[b], token)
    ensures s.jobs[a].seen <= s.jobs[b].stage.at && s.jobs[b].seen <= s.jobs[a].stage.at
  {
    RunsKeepInv(cfg, start, actions, s);
    ReadBeforeOtherRevoked(s.history, s.jobs[a], s.jobs[b], token);
    ReadBeforeOtherRevoked(s.history, s.jobs[b], s.jobs[a], token);
  }

  lemma ReadBeforeOtherRevoked(h: History, a: Job, b: Job, token: string)
    requires WellFormed(h) && JobOk(h, a) && JobOk(h, b) && Consumed(a, token) && Consumed(b, token)
    ensures a.seen <= b.stage.at
  {
    var k := b.stage.at;
    var e := Holding(h[..b.seen], token).value;
    var i :| 0 <= i < b.seen && h[i] == e;
    assert h[..k][i] == e;
    HeldMeansNotRevoked(h, a.seen, token, k);
  }

  /** Once a token has been revoked after its issue, every later read of it is refused. */
  lemma ReadAfterRevocationFails(cfg: Settings, start: int, actions: seq<Action>, s: System, id: nat, now: int, k: nat)
    requires Collisionless(cfg) && Run(cfg, Initial(start), actions) == Some(s) && Enabled(s, Fetch(id, now))
    requires k < |s.history| && s.history[k] == Revoked(s.jobs[id].request.token)
    requires !NeverIssued(s.history[..k], s.jobs[id].request.token)
    ensures Step(cfg, s, Fetch(id, now)).jobs[id].stage == Refused
  {
    RunsKeepInv(cfg, start, actions, s);
    var token := s.jobs[id].request.token;
    EqualLookups(s.store, Image(cfg, s.history), s.clock, now, TokenKey(cfg, token));
    TokenLookup(cfg, s.history, token, now);
    if Holding(s.history, token).Some? {
      assert s.history[..|s.history|] == s.history;
      HeldMeansNotRevoked(s.history, |s.history|, token, k);
    }
  }

  /** A request past its fetch knows the token's one issue. */
  lemma SeenIsIssue(h: History, job: Job, e: Event)
    requires WellFormed(h) && JobOk(h, job) && !job.request.Login? && !job.stage.Started? && !job.stage.Refused?
    requires e in h && e.Issued? && e.token == job.request.token
    ensures Knows(job, e)
  {
    var seen := Holding(h[..job.seen], job.request.token).value;
    var i :| 0 <= i < job.seen && h[..job.seen][i] == seen;
    var j :| 0 <= j < |h| && h[j] == e;
    assert h[i] == seen && i == j;
  }

  lemma CheckDecides(cfg: Settings, s: System, id: nat, now: int, e: Event)
    requires CacheOk(cfg, s) && Enabled(s, Check(id, now)) && e.Issued? && Knows(s.jobs[id], e)
    ensures Step(cfg, s, Check(id, now)).jobs[id].stage.Refused? <==>
              || e.user == 0
              || (var m := LastMarker(s.history, e.user);
                  m.Some? && Alive(cfg, m.value.storedAt, now) && Less(StampText(e.device, e.stamp), IsoFormat(m.value.stamp)))
  {
    EqualLookups(s.store, Image(cfg, s.history), s.clock, now, UserRevokedKey(e.user));
    MarkerLookup(cfg, s.history, e.user, now);
  }

  ghost predicate Superseded(cfg: Settings, h: History, e: Event, now: int)
    requires e.Issued?
  {
    exists r :: r in h && r.RevokedAll? && r.user == e.user && e.stamp < r.stamp && Alive(cfg, r.storedAt, now)
  }

  lemma LastMarkerSupersedes(cfg: Settings, h: History, e: Event, now: int)
    requires WellFormed(h) && e.Issued? && ColonFree(e.device)
    ensures Superseded(cfg, h, e, now) <==>
              (var m := LastMarker(h, e.user);
               m.Some? && Alive(cfg, m.value.storedAt, now) && Less(StampText(e.device, e.stamp), IsoFormat(m.value.stamp)))
  {
    LastMarkerIsLatest(h, e.user);
    DecodeEncode(e.user, e.device, e.stamp);
    if LastMarker(h, e.user).Some? {
      StringOrderIsTimeOrder(e.stamp, LastMarker(h, e.user).value.stamp);
    }
  }

  /** The check turns a request away exactly when a living revoke-all, come in by then, is stamped
      after the token's issue `e`, or the user is 0. */
  lemma CheckFollowsLedger(cfg: Settings, start: int, actions: seq<Action>, s: System, id: nat, now: int, e: Event)
    requires Collisionless(cfg) && Run(cfg, Initial(start), actions) == Some(s) && Enabled(s, Check(id, now))
    requires !s.jobs[id].request.Login? && e in s.history && e.Issued? && e.token == s.jobs[id].request.token
    requires ColonFree(e.device)
    ensures Step(cfg, s, Check(id, now)).jobs[id].stage.Refused? <==> e.user == 0 || Superseded(cfg, s.history, e, now)
  {
    RunsKeepInv(cfg, start, actions, s);
    SeenIsIssue(s.history, s.jobs[id], e);
    CheckDecides(cfg, s, id, now, e);
    LastMarkerSupersedes(cfg, s.history, e, now);
  }

  /** A refresh issues its new token to the user of the token it read. */
  lemma RefreshKeepsUser(cfg: Settings, start: int, actions: seq<Action>, s: System, a: Action, e: Event)
    requires Collisionless(cfg) && Run(cfg, Initial(start), actions) == Some(s) && Enabled(s, a)
    requires a.Create? && s.jobs[a.id].request.Refresh?
    requires e in s.history && e.Issued? && e.token == s.jobs[a.id].request.token
    ensures Step(cfg, s, a).history
         == s.history + [Issued(a.token, e.user, s.jobs[a.id].request.device, a.stamp, a.now)]
  {
    RunsKeepInv(cfg, start, actions, s);
    SeenIsIssue(s.history, s.jobs[a.id], e);
  }

  // ---- Verification in two steps --------------------------------------------------------

  /** A fetch followed at once by the check passes exactly when `Verify` accepts the token for a
      user other than 0. */
  lemma FetchThenCheckIsVerify(cfg: Settings, s: System, id: nat, g1: int, g2: int)
    requires Enabled(s, Fetch(id, g1)) && g1 <= g2
    ensures var verdict := Verify(cfg, s.store, s.jobs[id].request.token, g1, g2);
            var fetched := Step(cfg, s, Fetch(id, g1));
            var passed := verdict.Accepted? && verdict.user != 0;
            if fetched.jobs[id].stage.Fetched? then
              && Enabled(fetched, Check(id, g2))
              && Step(cfg, fetched, Check(id, g2)).jobs[id].stage == (if passed then Checked(verdict.user) else Refused)
            else fetched.jobs[id].stage == Refused && !passed
  {
    var key := TokenKey(cfg, s.jobs[id].request.token);
    var fetched := FetchStep(cfg, s, id, g1);
    if fetched.jobs[id].stage.Fetched? {
      var user := fetched.jobs[id].stage.user;
      KeysNeverCollide(cfg.digest(s.jobs[id].request.token), "", user, 0);
      EvictionHidesOneKey(s.store, g1, key, g2, UserRevokedKey(user));
    }
  }

  lemma EvictionHidesOneKey(m: Store, t: int, key: string, now: int, other: string)
    requires key != other
    ensures Lookup(CleanUp(m, t, key), now, other) == Lookup(m, now, other)
  {
  }

  /** Nothing but the job, the clock and evictions changes while a request reads. */
  lemma ReadingRecordsNothing(cfg: Settings, s: System, a: Action)
    requires Enabled(s, a) && (a.Fetch? || a.Check? || a.LookUp?)
    ensures var after := Step(cfg, s, a);
            && after.history == s.history && after.jobs.Keys == s.jobs.Keys
            && after.jobs[a.id].request == s.jobs[a.id].request
            && after.clock == (if a.LookUp? then s.clock else a.now)
            && forall k | k in s.jobs && k != a.id :: after.jobs[k] == s.jobs[k]
  {
  }

  /** The writing half of a refresh. */
  lemma MintThenRevoke(cfg: Settings, s: System, id: nat, user: int, drawn: string, stamp: Instant, now: int)
    requires id in s.jobs && s.jobs[id].request.Refresh? && s.jobs[id].stage == Cleared(user)
    requires NeverIssued(s.history, drawn) && s.clock <= stamp <= now
    ensures Enabled(s, Create(id, drawn, stamp, now))
    ensures var minted := Step(cfg, s, Create(id, drawn, stamp, now));
            && Enabled(minted, Revoke(id))
            && var done := Step(cfg, minted, Revoke(id));
            && done.jobs[id].stage.Finished?
            && done.history == s.history + [Issued(drawn, user, s.jobs[id].request.device, stamp, now), Revoked(s.jobs[id].request.token)]
  {
    CreateEffect(cfg, s, id, drawn, stamp, now);
    RevokeEffect(cfg, CreateStep(cfg, s, id, drawn, stamp, now), id);
  }

  /** A refresh that nothing interrupts does what the service does when requests do not overlap:
      verification decides, then the user table, and the new token goes to the verified user. */
  lemma UninterruptedRefresh(cfg: Settings, s: System, id: nat, g1: int, g2: int, active: bool,
                             drawn: string, stamp: Instant, now: int)
    requires Enabled(s, Fetch(id, g1)) && s.jobs[id].request.Refresh? && g1 <= g2 <= stamp <= now && NeverIssued(s.history, drawn)
    requires var verdict := Verify(cfg, s.store, s.jobs[id].request.token, g1, g2); verdict.Accepted? && verdict.user != 0
    ensures var user, token := Verify(cfg, s.store, s.jobs[id].request.token, g1, g2).user, s.jobs[id].request.token;
            var fetched := Step(cfg, s, Fetch(id, g1));
            && Enabled(fetched, Check(id, g2))
            && var checked := Step(cfg, fetched, Check(id, g2));
            && Enabled(checked, LookUp(id, active))
            && var found := Step(cfg, checked, LookUp(id, active));
            if !active then found.jobs[id].stage == Refused && found.history == s.history
            else
              && Enabled(found, Create(id, drawn, stamp, now))
              && var minted := Step(cfg, found, Create(id, drawn, stamp, now));
              && Enabled(minted, Revoke(id))
              && Step(cfg, minted, Revoke(id)).history
                 == s.history + [Issued(drawn, user, s.jobs[id].request.device, stamp, now), Revoked(token)]
  {
    var user := Verify(cfg, s.store, s.jobs[id].request.token, g1, g2).user;
    FetchThenCheckIsVerify(cfg, s, id, g1, g2);
    var fetched := Step(cfg, s, Fetch(id, g1));
    ReadingRecordsNothing(cfg, s, Fetch(id, g1));
    var checked := Step(cfg, fetched, Check(id, g2));
    ReadingRecordsNothing(cfg, fetched, Check(id, g2));
    var found := Step(cfg, checked, LookUp(id, active));
    ReadingRecordsNothing(cfg, checked, LookUp(id, active));
    LookUpDecides(cfg, checked, id, active);
    if active { MintThenRevoke(cfg, found, id, user, drawn, stamp, now); }
  }

  lemma UninterruptedLogout(cfg: Settings, s: System, id: nat, g1: int, g2: int)
    requires Enabled(s, Fetch(id, g1)) && s.jobs[id].request.Logout? && g1 <= g2
    requires var verdict := Verify(cfg, s.store, s.jobs[id].request.token, g1, g2); verdict.Accepted? && verdict.user != 0
    ensures var fetched := Step(cfg, s, Fetch(id, g1));
            && Enabled(fetched, Check(id, g2))
            && var checked := Step(cfg, fetched, Check(id, g2));
            && Enabled(checked, Revoke(id))
            && Step(cfg, checked, Revoke(id)).history == s.history + [Revoked(s.jobs[id].request.token)]
  {
    FetchThenCheckIsVerify(cfg, s, id, g1, g2);
    ReadingRecordsNothing(cfg, s, Fetch(id, g1));
    var fetched := Step(cfg, s, Fetch(id, g1));
    ReadingRecordsNothing(cfg, fetched, Check(id, g2));
    RevokeEffect(cfg, Step(cfg, fetched, Check(id, g2)), id);
  }

  // ---- Refused requests -----------------------------------------------------------------

  lemma LookUpDecides(cfg: Settings, s: System, id: nat, active: bool)
    requires Enabled(s, LookUp(id, active))
    ensures Step(cfg, s, LookUp(id, active)).jobs[id].stage == if active then Cleared(s.jobs[id].stage.user) else Refused
  {
  }

  lemma RefusedOutlivesStep(cfg: Settings, s: System, a: Action, id: nat)
    requires Enabled(s, a) && id in s.jobs && s.jobs[id].stage.Refused?
    ensures a.RevokeAll? || a.id != id
    ensures id in Step(cfg, s, a).jobs && Step(cfg, s, a).jobs[id] == s.jobs[id]
  {
  }

  /** A refused request does nothing more, whatever the others do. */
  lemma {:induction false} RefusedForGood(cfg: Settings, s: System, actions: seq<Action>, t: System, id: nat)
    requires Run(cfg, s, actions) == Some(t) && id in s.jobs && s.jobs[id].stage.Refused?
    ensures id in t.jobs && t.jobs[id] == s.jobs[id]
    ensures forall a | a in actions && !a.RevokeAll? :: a.id != id
  {
    if actions != [] {
      var front, last := actions[..|actions| - 1], actions[|actions| - 1];
      var before := Run(cfg, s, front).value;
      RefusedForGood(cfg, s, front, before, id);
      RefusedOutlivesStep(cfg, before, last, id);
    }
  }

  /** A refresh whose user is gone or inactive is refused: it neither mints nor revokes, ever. */
  lemma InactiveNeverMints(cfg: Settings, s: System, id: nat, actions: seq<Action>, t: System)
    requires Enabled(s, LookUp(id, false)) && Run(cfg, Step(cfg, s, LookUp(id, false)), actions) == Some(t)
    ensures Step(cfg, s, LookUp(id, false)).history == s.history
    ensures id in t.jobs && t.jobs[id].stage.Refused?
    ensures forall a | a in actions && (a.Create? || a.Revoke?) :: a.id != id
  {
    ReadingRecordsNothing(cfg, s, LookUp(id, false));
    LookUpDecides(cfg, s, id, false);
    RefusedForGood(cfg, Step(cfg, s, LookUp(id, false)), actions, t, id);
  }

  // ---- Refreshes and revoke-alls --------------------------------------------------------

  /** The request got past its check. */
  predicate PastCheck(job: Job) {
    !job.request.Login? && (job.stage.Checked? || job.stage.Cleared? || job.stage.Minted? || job.stage.Finished?)
  }

  /** Only its own check takes a request past the check. */
  lemma PastCheckBefore(cfg: Settings, s: System, a: Action, id: nat)
    requires Enabled(s, a) && id in Step(cfg, s, a).jobs && PastCheck(Step(cfg, s, a).jobs[id])
    requires !(a.Check? && a.id == id)
    ensures id in s.jobs && PastCheck(s.jobs[id])
    ensures s.jobs[id].request == Step(cfg, s, a).jobs[id].request && s.jobs[id].seen == Step(cfg, s, a).jobs[id].seen
  {
  }

  lemma HistoryGrows(cfg: Settings, s: System, a: Action)
    requires Enabled(s, a)
    ensures s.history <= Step(cfg, s, a).history
  {
  }

  /** The check, somewhere in the run, that a request past its check has passed. */
  lemma {:induction false} PassedCheck(cfg: Settings, start: int, actions: seq<Action>, s: System, id: nat)
    returns (p: nat, s0: System, now: int)
    requires Run(cfg, Initial(start), actions) == Some(s) && id in s.jobs && PastCheck(s.jobs[id])
    ensures p < |actions| && actions[p] == Check(id, now) && Run(cfg, Initial(start), actions[..p]) == Some(s0)
    ensures Enabled(s0, Check(id, now)) && !Step(cfg, s0, Check(id, now)).jobs[id].stage.Refused?
    ensures s0.history <= s.history
    ensures s0.jobs[id].request == s.jobs[id].request && s0.jobs[id].seen == s.jobs[id].seen
  {
    var front, a := actions[..|actions| - 1], actions[|actions| - 1];
    var before := Run(cfg, Initial(start), front).value;
    if a.Check? && a.id == id {
      p, s0, now := |front|, before, a.now;
    } else {
      PastCheckBefore(cfg, before, a, id);
      HistoryGrows(cfg, before, a);
      p, s0, now := PassedCheck(cfg, start, front, before, id);
      assert actions[..p] == front[..p];
    }
  }

  /** A request is past its check in spite of a revoke-all stamped after its token only if that
      check came before the revoke-all, or after the revoke-all's marker had expired. */
  lemma OutrunNeedsEarlyCheck(cfg: Settings, start: int, actions: seq<Action>, s: System, id: nat, e: Event, k: nat)
    returns (p: nat, s0: System, now: int)
    requires Collisionless(cfg) && Run(cfg, Initial(start), actions) == Some(s) && id in s.jobs && PastCheck(s.jobs[id])
    requires e in s.history && e.Issued? && e.token == s.jobs[id].request.token && ColonFree(e.device)
    requires k < |s.history| && s.history[k].RevokedAll? && s.history[k].user == e.user && e.stamp < s.history[k].stamp
    ensures p < |actions| && actions[p] == Check(id, now) && Run(cfg, Initial(start), actions[..p]) == Some(s0)
    ensures |s0.history| <= k || !Alive(cfg, s.history[k].storedAt, now)
  {
    p, s0, now := PassedCheck(cfg, start, actions, s, id);
    RunsKeepInv(cfg, start, actions, s);
    CheckCameEarly(cfg, start, actions[..p], s0, s.history, id, now, e, k);
  }

  lemma CheckCameEarly(cfg: Settings, start: int, actions: seq<Action>, s0: System, h: History, id: nat, now: int,
                       e: Event, k: nat)
    requires Collisionless(cfg) && Run(cfg, Initial(start), actions) == Some(s0) && Enabled(s0, Check(id, now))
    requires !Step(cfg, s0, Check(id, now)).jobs[id].stage.Refused? && s0.history <= h && WellFormed(h)
    requires !s0.jobs[id].request.Login? && e.Issued? && e.token == s0.jobs[id].request.token && ColonFree(e.device)
    requires e in h && k < |h| && h[k].RevokedAll? && h[k].user == e.user && e.stamp < h[k].stamp
    ensures |s0.history| <= k || !Alive(cfg, h[k].storedAt, now)
  {
    RunsKeepInv(cfg, start, actions, s0);
    IssueWasSeen(s0.history, h, s0.jobs[id], e);
    CheckFollowsLedger(cfg, start, actions, s0, id, now, e);
    if k < |s0.history| { assert s0.history[k] == h[k] && h[k] in s0.history; }
  }

  /** The issue of a token that a request has read was there when it was read. */
  lemma IssueWasSeen(h0: History, h: History, job: Job, e: Event)
    requires h0 <= h && WellFormed(h) && JobOk(h0, job) && !job.request.Login? && job.stage.Fetched?
    requires e in h && e.Issued? && e.token == job.request.token
    ensures e in h0
  {
    var seen := Holding(h0[..job.seen], job.request.token).value;
    var i :| 0 <= i < job.seen && h0[..job.seen][i] == seen;
    var j :| 0 <= j < |h| && h[j] == e;
    assert h[i] == h0[i] == seen && i == j;
  }

  lemma MintAccepted(cfg: Settings, s: System, id: nat, drawn: string, stamp: Instant, now: int)
    requires Collisionless(cfg) && cfg.lifetime >= 0 && Inv(cfg, s) && Enabled(s, Create(id, drawn, stamp, now))
    requires ColonFree(s.jobs[id].request.device)
    ensures Inv(cfg, CreateStep(cfg, s, id, drawn, stamp, now))
    ensures Verify(cfg, CreateStep(cfg, s, id, drawn, stamp, now).store, drawn, now, now) == Accepted(Owner(s.jobs[id]))
  {
    CreateEffect(cfg, s, id, drawn, stamp, now);
    CreateKeepsInv(cfg, s, id, drawn, stamp, now);
    LatestTokenAccepted(cfg, CreateStep(cfg, s, id, drawn, stamp, now), |s.history|);
  }

  lemma RevokeEffect(cfg: Settings, s: System, id: nat)
    requires Enabled(s, Revoke(id))
    ensures var after := RevokeStep(cfg, s, id);
            && after.clock == s.clock && after.history == s.history + [Revoked(s.jobs[id].request.token)]
            && after.jobs == s.jobs[id := s.jobs[id].(stage := Finished(|s.history|))]
  {
  }

  lemma MintSurvivesRevoke(cfg: Settings, s: System, id: nat, i: nat)
    requires Collisionless(cfg) && cfg.lifetime >= 0 && Inv(cfg, s) && Enabled(s, Revoke(id)) && |s.history| == i + 1
    requires s.history[i].Issued? && s.history[i].storedAt == s.clock && ColonFree(s.history[i].device)
    requires s.jobs[id].request.token != s.history[i].token
    ensures Verify(cfg, RevokeStep(cfg, s, id).store, s.history[i].token, s.clock, s.clock) == Accepted(s.history[i].user)
  {
    RevokeEffect(cfg, s, id);
    RevokeKeepsInv(cfg, s, id);
    LatestTokenAccepted(cfg, RevokeStep(cfg, s, id), i);
  }

  /** Conversely a refresh past the user lookup mints a token that is accepted at once, before and
      after it revokes the old one, whatever revoke-alls came in meanwhile. */
  lemma ClearedRefreshMints(cfg: Settings, start: int, actions: seq<Action>, s: System, id: nat, e: Event,
                            drawn: string, stamp: Instant, now: int)
    requires Collisionless(cfg) && cfg.lifetime >= 0 && Run(cfg, Initial(start), actions) == Some(s)
    requires id in s.jobs && s.jobs[id].request.Refresh? && s.jobs[id].stage.Cleared?
    requires ColonFree(s.jobs[id].request.device) && NeverIssued(s.history, drawn) && s.clock <= stamp <= now
    requires e in s.history && e.Issued? && e.token == s.jobs[id].request.token
    ensures Enabled(s, Create(id, drawn, stamp, now))
    ensures var minted := Step(cfg, s, Create(id, drawn, stamp, now));
            && Verify(cfg, minted.store, drawn, now, now) == Accepted(e.user)
            && Enabled(minted, Revoke(id))
            && Verify(cfg, Step(cfg, minted, Revoke(id)).store, drawn, now, now) == Accepted(e.user)
  {
    RunsKeepInv(cfg, start, actions, s);
    SeenIsIssue(s.history, s.jobs[id], e);
    CreateEffect(cfg, s, id, drawn, stamp, now);
    MintAccepted(cfg, s, id, drawn, stamp, now);
    MintSurvivesRevoke(cfg, CreateStep(cfg, s, id, drawn, stamp, now), id, |s.history|);
  }

  /** A token issued at the present reading, with neither its own revocation nor any revoke-all
      since, is accepted. */
  lemma LatestTokenAccepted(cfg: Settings, s: System, i: nat)
    requires Collisionless(cfg) && cfg.lifetime >= 0 && CacheOk(cfg, s)
    requires i < |s.history| && s.history[i].Issued? && s.history[i].storedAt == s.clock && ColonFree(s.history[i].device)
    requires forall j | i < j < |s.history| :: s.history[j].Revoked? && s.history[j].token != s.history[i].token
    ensures Verify(cfg, s.store, s.history[i].token, s.clock, s.clock) == Accepted(s.history[i].user)
  {
    FreshTokenVerifies(cfg, s.store, s.history, i, s.clock);
  }

  // ---- Two runs that only interleaving allows -------------------------------------------

  /** Reading a held, living token yields its user and its stamp. */
  lemma FetchSucceeds(cfg: Settings, s: System, id: nat, now: int, e: Event)
    requires Collisionless(cfg) && CacheOk(cfg, s) && Enabled(s, Fetch(id, now))
    requires Holding(s.history, s.jobs[id].request.token) == Some(e) && Alive(cfg, e.storedAt, now)
    ensures Step(cfg, s, Fetch(id, now)).jobs
         == s.jobs[id := Job(s.jobs[id].request, Fetched(e.user, StampText(e.device, e.stamp)), |s.history|)]
  {
    var token := s.jobs[id].request.token;
    EqualLookups(s.store, Image(cfg, s.history), s.clock, now, TokenKey(cfg, token));
    TokenLookup(cfg, s.history, token, now);
    DecodeEncode(e.user, e.device, e.stamp);
  }

  /** Without a marker the check lets every user but 0 pass. */
  lemma CheckSucceeds(cfg: Settings, s: System, id: nat, now: int)
    requires Collisionless(cfg) && CacheOk(cfg, s) && Enabled(s, Check(id, now))
    requires s.jobs[id].stage.user != 0 && LastMarker(s.history, s.jobs[id].stage.user).None?
    ensures Step(cfg, s, Check(id, now)).jobs == s.jobs[id := s.jobs[id].(stage := Checked(s.jobs[id].stage.user))]
  {
    var user := s.jobs[id].stage.user;
    EqualLookups(s.store, Image(cfg, s.history), s.clock, now, UserRevokedKey(user));
    MarkerLookup(cfg, s.history, user, now);
  }

  /** One more enabled action. */
  lemma Then(cfg: Settings, start: int, actions: seq<Action>, s: System, a: Action) returns (actions': seq<Action>)
    requires Run(cfg, Initial(start), actions) == Some(s) && Enabled(s, a)
    ensures Run(cfg, Initial(start), actions') == Some(Step(cfg, s, a))
  {
    actions' := actions + [a];
    assert actions'[..|actions|] == actions;
  }

  lemma ThenBegin(cfg: Settings, start: int, actions: seq<Action>, s: System, id: nat, request: Request)
    returns (actions': seq<Action>, s': System)
    requires Run(cfg, Initial(start), actions) == Some(s) && id !in s.jobs
    ensures Run(cfg, Initial(start), actions') == Some(s') && s'.history == s.history && s'.clock == s.clock
    ensures s'.jobs == s.jobs[id := Job(request, Started, 0)]
  {
    s' := Step(cfg, s, Begin(id, request));
    actions' := Then(cfg, start, actions, s, Begin(id, request));
  }

  lemma ThenFetch(cfg: Settings, start: int, actions: seq<Action>, s: System, id: nat, e: Event)
    returns (actions': seq<Action>, s': System)
    requires Collisionless(cfg) && Run(cfg, Initial(start), actions) == Some(s) && Enabled(s, Fetch(id, s.clock))
    requires Holding(s.history, s.jobs[id].request.token) == Some(e) && Alive(cfg, e.storedAt, s.clock)
    ensures Run(cfg, Initial(start), actions') == Some(s') && s'.history == s.history && s'.clock == s.clock
    ensures s'.jobs == s.jobs[id := Job(s.jobs[id].request, Fetched(e.user, StampText(e.device, e.stamp)), |s.history|)]
  {
    RunsKeepInv(cfg, start, actions, s);
    FetchSucceeds(cfg, s, id, s.clock, e);
    s' := Step(cfg, s, Fetch(id, s.clock));
    actions' := Then(cfg, start, actions, s, Fetch(id, s.clock));
  }

  lemma ThenCheck(cfg: Settings, start: int, actions: seq<Action>, s: System, id: nat)
    returns (actions': seq<Action>, s': System)
    requires Collisionless(cfg) && Run(cfg, Initial(start), actions) == Some(s) && Enabled(s, Check(id, s.clock))
    requires s.jobs[id].stage.user != 0 && LastMarker(s.history, s.jobs[id].stage.user).None?
    ensures Run(cfg, Initial(start), actions') == Some(s') && s'.history == s.history && s'.clock == s.clock
    ensures s'.jobs == s.jobs[id := s.jobs[id].(stage := Checked(s.jobs[id].stage.user))]
  {
    RunsKeepInv(cfg, start, actions, s);
    CheckSucceeds(cfg, s, id, s.clock);
    s' := Step(cfg, s, Check(id, s.clock));
    actions' := Then(cfg, start, actions, s, Check(id, s.clock));
  }

  lemma ThenLookUp(cfg: Settings, start: int, actions: seq<Action>, s: System, id: nat)
    returns (actions': seq<Action>, s': System)
    requires Run(cfg, Initial(start), actions) == Some(s) && Enabled(s, LookUp(id, true))
    ensures Run(cfg, Initial(start), actions') == Some(s') && s'.history == s.history && s'.clock == s.clock
    ensures s'.jobs == s.jobs[id := s.jobs[id].(stage := Cleared(s.jobs[id].stage.user))]
  {
    s' := Step(cfg, s, LookUp(id, true));
    actions' := Then(cfg, start, actions, s, LookUp(id, true));
  }

  lemma ThenCreate(cfg: Settings, start: int, actions: seq<Action>, s: System, id: nat, token: string, now: Instant)
    returns (actions': seq<Action>, s': System)
    requires Run(cfg, Initial(start), actions) == Some(s) && Enabled(s, Create(id, token, now, now))
    ensures Run(cfg, Initial(start), actions') == Some(s') && s'.clock == now
    ensures var job := s.jobs[id];
            var user := if job.request.Login? then job.request.user else job.stage.user;
            && s'.history == s.history + [Issued(token, user, job.request.device, now, now)]
            && s'.jobs == s.jobs[id := job.(stage := if job.request.Login? then Finished(|s.history|) else Minted(user))]
  {
    s' := Step(cfg, s, Create(id, token, now, now));
    actions' := Then(cfg, start, actions, s, Create(id, token, now, now));
  }

  lemma ThenRevoke(cfg: Settings, start: int, actions: seq<Action>, s: System, id: nat)
    returns (actions': seq<Action>, s': System)
    requires Run(cfg, Initial(start), actions) == Some(s) && Enabled(s, Revoke(id))
    ensures Run(cfg, Initial(start), actions') == Some(s') && s'.clock == s.clock
    ensures s'.history == s.history + [Revoked(s.jobs[id].request.token)]
    ensures s'.jobs == s.jobs[id := s.jobs[id].(stage := Finished(|s.history|))]
  {
    s' := Step(cfg, s, Revoke(id));
    actions' := Then(cfg, start, actions, s, Revoke(id));
  }

  lemma ThenRevokeAll(cfg: Settings, start: int, actions: seq<Action>, s: System, user: int, now: Instant)
    returns (actions': seq<Action>, s': System)
    requires Run(cfg, Initial(start), actions) == Some(s) && s.clock <= now
    ensures Run(cfg, Initial(start), actions') == Some(s') && s'.clock == now
    ensures s'.history == s.history + [RevokedAll(user, now, now)] && s'.jobs == s.jobs
  {
    s' := Step(cfg, s, RevokeAll(user, now, now));
    actions' := Then(cfg, start, actions, s, RevokeAll(user, now, now));
  }

  lemma LoginRun(cfg: Settings, c: Instant, user: int, device: Option<string>, token: string)
    returns (actions: seq<Action>, s: System)
    requires Collisionless(cfg)
    ensures Run(cfg, Initial(c), actions) == Some(s) && s.clock == c
    ensures s.history == [Issued(token, user, device, c, c)] && s.jobs.Keys == {0}
  {
    actions, s := ThenBegin(cfg, c, [], Initial(c), 0, Login(user, device));
    actions, s := ThenCreate(cfg, c, actions, s, 0, token, c);
  }

  lemma FetchPhase(cfg: Settings, start: int, actions: seq<Action>, s: System, id: nat, token: string,
        device: Option<string>, e: Event)
    returns (actions': seq<Action>, s': System)
    requires Collisionless(cfg) && Run(cfg, Initial(start), actions) == Some(s) && id !in s.jobs
    requires Holding(s.history, token) == Some(e) && Alive(cfg, e.storedAt, s.clock)
    ensures Run(cfg, Initial(start), actions') == Some(s') && s'.history == s.history && s'.clock == s.clock
    ensures s'.jobs == s.jobs[id := Job(Refresh(token, device), Fetched(e.user, StampText(e.device, e.stamp)), |s.history|)]
  {
    actions', s' := ThenBegin(cfg, start, actions, s, id, Refresh(token, device));
    actions', s' := ThenFetch(cfg, start, actions', s', id, e);
  }

  /** A refresh of a held, living token without a marker gets as far as the user lookup. */
  lemma ReadPhase(cfg: Settings, start: int, actions: seq<Action>, s: System, id: nat, token: string,
        device: Option<string>, e: Event)
    returns (actions': seq<Action>, s': System)
    requires Collisionless(cfg) && Run(cfg, Initial(start), actions) == Some(s) && id !in s.jobs
    requires Holding(s.history, token) == Some(e) && Alive(cfg, e.storedAt, s.clock)
    requires e.user != 0 && LastMarker(s.history, e.user).None?
    ensures Run(cfg, Initial(start), actions') == Some(s') && s'.history == s.history && s'.clock == s.clock
    ensures s'.jobs == s.jobs[id := Job(Refresh(token, device), Cleared(e.user), |s.history|)]
  {
    actions', s' := FetchPhase(cfg, start, actions, s, id, token, device, e);
    actions', s' := ThenCheck(cfg, start, actions', s', id);
    actions', s' := ThenLookUp(cfg, start, actions', s', id);
  }

  lemma UpdatedTwice(jobs: map<nat, Job>, id: nat, first: Job, second: Job)
    ensures jobs[id := first][id := second] == jobs[id := second]
  {
  }

  /** Once past the lookup a refresh runs to its end whatever happened meanwhile. */
  lemma WritePhase(cfg: Settings, start: int, actions: seq<Action>, s: System, id: nat, drawn: string, now: Instant)
    returns (actions': seq<Action>, s': System)
    requires Collisionless(cfg) && Run(cfg, Initial(start), actions) == Some(s) && s.clock <= now
    requires id in s.jobs && s.jobs[id].request.Refresh? && s.jobs[id].stage.Cleared? && NeverIssued(s.history, drawn)
    ensures Run(cfg, Initial(start), actions') == Some(s') && s'.clock == now
    ensures var job := s.jobs[id];
            && s'.history == s.history + [Issued(drawn, job.stage.user, job.request.device, now, now)]
                             + [Revoked(job.request.token)]
            && s'.jobs == s.jobs[id := job.(stage := Finished(|s.history| + 1))]
  {
    var created, minted := ThenCreate(cfg, start, actions, s, id, drawn, now);
    var job := s.jobs[id].(stage := Minted(s.jobs[id].stage.user));
    assert minted.jobs[id] == job;
    actions', s' := ThenRevoke(cfg, start, created, minted, id);
    UpdatedTwice(s.jobs, id, job, s'.jobs[id]);
  }

  /** One token can be refreshed twice when both requests read it before either revoked it. */
  lemma TokenRefreshedTwice(cfg: Settings, c: Instant, user: int, device: Option<string>, token: string,
        n1: string, n2: string)
    returns (actions: seq<Action>, s: System)
    requires Collisionless(cfg) && cfg.lifetime >= 0 && user != 0 && token != n1 && token != n2 && n1 != n2
    ensures Run(cfg, Initial(c), actions) == Some(s)
    ensures 1 in s.jobs && 2 in s.jobs && s.jobs[1].request == s.jobs[2].request == Refresh(token, device)
    ensures s.jobs[1].stage.Finished? && s.jobs[2].stage.Finished?
    ensures Holding(s.history, n1).Some? && Holding(s.history, n2).Some?
  {
    actions, s := LoginRun(cfg, c, user, device, token);
    var e := s.history[0];
    assert s.history[..0] == [];
    actions, s := ReadPhase(cfg, c, actions, s, 1, token, device, e);
    actions, s := ReadPhase(cfg, c, actions, s, 2, token, device, e);
    actions, s := WritePhase(cfg, c, actions, s, 1, n1, c);
    actions, s := WritePhase(cfg, c, actions, s, 2, n2, c);
    TwiceRotatedHolds(s.history, n1, n2);
  }

  lemma TwiceRotatedHolds(h: History, n1: string, n2: string)
    requires |h| == 5 && h[1].Issued? && h[1].token == n1 && h[3].Issued? && h[3].token == n2 && n1 != n2
    requires h[2].Revoked? && h[4].Revoked? && h[2].token == h[4].token && h[2].token != n1 && h[2].token != n2
    ensures Holding(h, n1).Some? && Holding(h, n2).Some?
  {
    assert h[..4][..3] == h[..3] && h[..3][..2] == h[..2];
    assert Holding(h[..2], n1) == Some(h[1]);
    assert Holding(h[..3], n1) == Some(h[1]);
    assert Holding(h[..4], n1) == Some(h[1]) && Holding(h[..4], n2) == Some(h[3]);
  }

  lemma LastMintAccepted(cfg: Settings, start: int, actions: seq<Action>, s: System, h: History, e: Event, spent: string)
    requires Collisionless(cfg) && cfg.lifetime >= 0 && Run(cfg, Initial(start), actions) == Some(s)
    requires s.history == h + [e] + [Revoked(spent)] && e.Issued? && e.storedAt == s.clock && e.token != spent && ColonFree(e.device)
    ensures Verify(cfg, s.store, e.token, s.clock, s.clock) == Accepted(e.user)
  {
    RunsKeepInv(cfg, start, actions, s);
    LatestTokenAccepted(cfg, s, |h|);
  }

  /** There is such a run for any two instants: the revoke-all comes between check and mint. */
  lemma RefreshOutrunsRevokeAll(cfg: Settings, c: Instant, r: Instant, user: int, device: Option<string>,
        token: string, drawn: string)
    returns (actions: seq<Action>, s: System)
    requires Collisionless(cfg) && cfg.lifetime >= 0 && user != 0 && token != drawn && c < r && ColonFree(device)
    ensures Run(cfg, Initial(c), actions) == Some(s)
    ensures s.history == [Issued(token, user, device, c, c), RevokedAll(user, r, r), Issued(drawn, user, device, r, r), Revoked(token)]
    ensures Verify(cfg, s.store, drawn, s.clock, s.clock) == Accepted(user)
  {
    actions, s := LoginRun(cfg, c, user, device, token);
    var e := s.history[0];
    assert s.history[..0] == [];
    actions, s := ReadPhase(cfg, c, actions, s, 1, token, device, e);
    actions, s := ThenRevokeAll(cfg, c, actions, s, user, r);
    var h, i := s.history, Issued(drawn, user, device, r, r);
    assert h == [e, RevokedAll(user, r, r)];
    actions, s := WritePhase(cfg, c, actions, s, 1, drawn, r);
    LastMintAccepted(cfg, c, actions, s, h, i, token);
  }
}
