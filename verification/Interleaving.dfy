/** Any number of login, refresh and logout requests whose steps interleave at the awaits of
    src/auth/service.py and src/auth/backend.py. Each cache operation is one step. */
module Interleaving {
  import opened Wrappers
  import opened Text
  import opened IsoTime
  import opened RedisKeys
  import opened TokenCodec
  import opened LocalCaches
  import opened TokenLedger

  datatype Request =
    | Login(user: int, device: Option<string>)
    | Refresh(token: string, device: Option<string>)
    | Logout(token: string)

  /** How far a request has come. `Finished` remembers where in the history its last event is. */
  datatype Stage =
    | Started
    | Fetched(user: int, created: string)
    | Checked(user: int)
    | Cleared(user: int)
    | Minted(user: int)
    | Finished(at: nat)
    | Refused

  /** `seen` is the length of the history when the request read the token's value. */
  datatype Job = Job(request: Request, stage: Stage, seen: nat)

  datatype System = System(store: Store, clock: int, history: History, jobs: map<nat, Job>)

  datatype Action =
    | Begin(id: nat, request: Request)
    | Fetch(id: nat, now: int)
    | Check(id: nat, now: int)
    | LookUp(id: nat, active: bool)
    | Create(id: nat, token: string, stamp: Instant, now: int)
    | Revoke(id: nat)
    | RevokeAll(user: int, stamp: Instant, now: int)

  function Initial(now: int): System {
    System(map[], now, [], map[])
  }

  ghost predicate Enabled(s: System, a: Action) {
    match a
    case Begin(id, _) => id !in s.jobs
    case Fetch(id, now) => id in s.jobs && s.jobs[id].stage.Started? && !s.jobs[id].request.Login? && s.clock <= now
    case Check(id, now) => id in s.jobs && s.jobs[id].stage.Fetched? && s.clock <= now
    case LookUp(id, _) => id in s.jobs && s.jobs[id].stage.Checked? && s.jobs[id].request.Refresh?
    case Create(id, token, stamp, now) =>
      && id in s.jobs && NeverIssued(s.history, token) && s.clock <= stamp <= now
      && (if s.jobs[id].request.Login? then s.jobs[id].stage.Started?
          else s.jobs[id].request.Refresh? && s.jobs[id].stage.Cleared?)
    case Revoke(id) =>
      && id in s.jobs
      && ((s.jobs[id].request.Refresh? && s.jobs[id].stage.Minted?) || (s.jobs[id].request.Logout? && s.jobs[id].stage.Checked?))
    case RevokeAll(_, stamp, now) => s.clock <= stamp <= now
  }

  function Move(s: System, id: nat, stage: Stage): System
    requires id in s.jobs
  {
    s.(jobs := s.jobs[id := s.jobs[id].(stage := stage)])
  }

  /** The stage after reading the token's value. */
  function AfterFetch(value: Option<string>): Stage {
    if value.None? || value.value == "" then Refused
    else match Decode(value.value)
      case None => Refused
      case Some((user, created)) => Fetched(user, created)
  }

  /** The stage after reading the marker; the service also turns the id 0 away. */
  function AfterCheck(user: int, created: string, marker: Option<string>): Stage {
    if (marker.Some? && marker.value != "" && Less(created, marker.value)) || user == 0 then Refused
    else Checked(user)
  }

  function Record(s: System, store: Store, now: int, e: Event): System {
    s.(store := store, clock := now, history := s.history + [e])
  }

  // One function per action, so that each is reasoned about on its own.

  function BeginStep(s: System, id: nat, request: Request): System {
    s.(jobs := s.jobs[id := Job(request, Started, 0)])
  }

  function FetchStep(cfg: Settings, s: System, id: nat, now: int): System
    requires id in s.jobs && !s.jobs[id].request.Login?
  {
    var key := TokenKey(cfg, s.jobs[id].request.token);
    var job := s.jobs[id].(stage := AfterFetch(Lookup(s.store, now, key)), seen := |s.history|);
    s.(store := CleanUp(s.store, now, key), clock := now, jobs := s.jobs[id := job])
  }

  function CheckStep(s: System, id: nat, now: int): System
    requires id in s.jobs && s.jobs[id].stage.Fetched?
  {
    var Fetched(user, created) := s.jobs[id].stage;
    var key := UserRevokedKey(user);
    Move(s.(store := CleanUp(s.store, now, key), clock := now), id, AfterCheck(user, created, Lookup(s.store, now, key)))
  }

  function LookUpStep(s: System, id: nat, active: bool): System
    requires id in s.jobs && s.jobs[id].stage.Checked?
  {
    Move(s, id, if active then Cleared(s.jobs[id].stage.user) else Refused)
  }

  /** The user that a `Create` issues to, and the stage it leads to. */
  function Owner(job: Job): int
    requires job.request.Login? || job.stage.Cleared?
  {
    if job.request.Login? then job.request.user else job.stage.user
  }

  function AfterCreate(h: History, job: Job): Stage
    requires job.request.Login? || job.stage.Cleared?
  {
    if job.request.Login? then Finished(|h|) else Minted(job.stage.user)
  }

  function CreateStep(cfg: Settings, s: System, id: nat, token: string, stamp: Instant, now: int): System
    requires id in s.jobs && !s.jobs[id].request.Logout? && (s.jobs[id].request.Login? || s.jobs[id].stage.Cleared?)
  {
    var job := s.jobs[id];
    var value := Encode(Owner(job), job.request.device, stamp);
    var store := LazyStep(s.store, now, Op.Set(TokenKey(cfg, token), value, Some(cfg.lifetime))).0;
    Move(Record(s, store, now, Issued(token, Owner(job), job.request.device, stamp, now)), id, AfterCreate(s.history, job))
  }

  function RevokeStep(cfg: Settings, s: System, id: nat): System
    requires id in s.jobs && !s.jobs[id].request.Login?
  {
    var token := s.jobs[id].request.token;
    var store := LazyStep(s.store, s.clock, Op.Delete(TokenKey(cfg, token))).0;
    Move(Record(s, store, s.clock, Revoked(token)), id, Finished(|s.history|))
  }

  function RevokeAllStep(cfg: Settings, s: System, user: int, stamp: Instant, now: int): System {
    var store := LazyStep(s.store, now, Op.Set(UserRevokedKey(user), IsoFormat(stamp), Some(cfg.lifetime))).0;
    Record(s, store, now, RevokedAll(user, stamp, now))
  }

  ghost function Step(cfg: Settings, s: System, a: Action): System
    requires Enabled(s, a)
  {
    match a
    case Begin(id, request) => BeginStep(s, id, request)
    case Fetch(id, now) => FetchStep(cfg, s, id, now)
    case Check(id, now) => CheckStep(s, id, now)
    case LookUp(id, active) => LookUpStep(s, id, active)
    case Create(id, token, stamp, now) => CreateStep(cfg, s, id, token, stamp, now)
    case Revoke(id) => RevokeStep(cfg, s, id)
    case RevokeAll(user, stamp, now) => RevokeAllStep(cfg, s, user, stamp, now)
  }

  /** The system after a run, None when some action was not enabled. */
  ghost function Run(cfg: Settings, s: System, actions: seq<Action>): Option<System> {
    if actions == [] then Some(s)
    else
      var before := Run(cfg, s, actions[..|actions| - 1]);
      if before.None? || !Enabled(before.value, actions[|actions| - 1]) then None
      else Some(Step(cfg, before.value, actions[|actions| - 1]))
  }

  // ---- The invariant --------------------------------------------------------------------

  /** The cache is the image of the history, as in runs without overlap. */
  ghost predicate CacheOk(cfg: Settings, s: System) {
    && WellFormed(s.history) && Past(s.history, s.clock)
    && Purge(s.store, s.clock) == Purge(Image(cfg, s.history), s.clock)
  }

  /** What the request knows of the token is what the issue of the token said. */
  ghost predicate Knows(job: Job, e: Event)
    requires e.Issued?
  {
    match job.stage
    case Fetched(user, created) => user == e.user && created == StampText(e.device, e.stamp)
    case Checked(user) => user == e.user
    case Cleared(user) => user == e.user
    case Minted(user) => user == e.user
    case _ => true
  }

  /** A request past its fetch saw the token held; one that is done has revoked it since. */
  ghost predicate JobOk(h: History, job: Job) {
    && job.seen <= |h|
    && (!job.request.Login? && Holding(h[..job.seen], job.request.token).Some? ==>
          Knows(job, Holding(h[..job.seen], job.request.token).value))
    && (!job.request.Login? && !job.stage.Started? && !job.stage.Refused? ==>
          Holding(h[..job.seen], job.request.token).Some?)
    && (!job.request.Login? && job.stage.Finished? ==>
          job.seen <= job.stage.at < |h| && h[job.stage.at] == Revoked(job.request.token))
  }

  ghost predicate Inv(cfg: Settings, s: System) {
    CacheOk(cfg, s) && forall id | id in s.jobs :: JobOk(s.history, s.jobs[id])
  }

  lemma JobOutlivesEvent(h: History, e: Event, job: Job)
    requires JobOk(h, job)
    ensures JobOk(h + [e], job)
  {
    assert (h + [e])[..job.seen] == h[..job.seen];
  }

  /** A step that records nothing keeps the invariant when it keeps the cache and its own job. */
  lemma QuietStepKeepsInv(cfg: Settings, s: System, s': System, id: nat, job: Job)
    requires Inv(cfg, s) && CacheOk(cfg, s') && s'.history == s.history
    requires s'.jobs == s.jobs[id := job] && JobOk(s.history, job)
    ensures Inv(cfg, s')
  {
    forall k | k in s'.jobs ensures JobOk(s'.history, s'.jobs[k]) {
      if k != id { assert s'.jobs[k] == s.jobs[k]; }
    }
  }

  /** So does a step that records one event. */
  lemma EventStepKeepsInv(cfg: Settings, s: System, s': System, e: Event, id: nat, job: Job)
    requires Inv(cfg, s) && CacheOk(cfg, s') && s'.history == s.history + [e]
    requires s'.jobs == s.jobs[id := job] && JobOk(s'.history, job)
    ensures Inv(cfg, s')
  {
    forall k | k in s'.jobs ensures JobOk(s'.history, s'.jobs[k]) {
      if k != id {
        assert s'.jobs[k] == s.jobs[k];
        JobOutlivesEvent(s.history, e, s.jobs[k]);
      }
    }
  }

  // The cache under each kind of access.

  lemma EvictionKeepsCache(cfg: Settings, s: System, now: int, key: string)
    requires CacheOk(cfg, s) && s.clock <= now
    ensures Past(s.history, now) && Purge(CleanUp(s.store, now, key), now) == Purge(Image(cfg, s.history), now)
  {
    PurgeEqualLater(s.store, Image(cfg, s.history), s.clock, now);
    PurgeOfCleanUp(s.store, now, key);
  }

  lemma DeleteKeepsCache(cfg: Settings, s: System, token: string)
    requires CacheOk(cfg, s)
    ensures Purge(Without(s.store, TokenKey(cfg, token)), s.clock) == Purge(Image(cfg, s.history + [Revoked(token)]), s.clock)
  {
    SameAfterWithout(s.store, Image(cfg, s.history), s.clock, TokenKey(cfg, token));
    ImageStep(cfg, s.history, Revoked(token));
  }

  // What each kind of step makes of its job.

  lemma FetchedJobOk(cfg: Settings, s: System, job: Job, now: int)
    requires Collisionless(cfg) && CacheOk(cfg, s) && s.clock <= now && !job.request.Login?
    ensures var stage := AfterFetch(Lookup(s.store, now, TokenKey(cfg, job.request.token)));
            JobOk(s.history, job.(stage := stage, seen := |s.history|))
  {
    var token := job.request.token;
    EqualLookups(s.store, Image(cfg, s.history), s.clock, now, TokenKey(cfg, token));
    TokenLookup(cfg, s.history, token, now);
    assert s.history[..|s.history|] == s.history;
    var held := Holding(s.history, token);
    if held.Some? { DecodeEncode(held.value.user, held.value.device, held.value.stamp); }
  }

  lemma CheckedJobOk(h: History, job: Job, marker: Option<string>)
    requires JobOk(h, job) && job.stage.Fetched?
    ensures JobOk(h, job.(stage := AfterCheck(job.stage.user, job.stage.created, marker)))
  {
  }

  lemma LookedUpJobOk(h: History, job: Job, active: bool)
    requires JobOk(h, job) && job.stage.Checked?
    ensures JobOk(h, job.(stage := if active then Cleared(job.stage.user) else Refused))
  {
  }

  lemma CreatedJobOk(h: History, job: Job)
    requires JobOk(h, job) && (job.request.Login? || job.stage.Cleared?)
    ensures JobOk(h, job.(stage := AfterCreate(h, job)))
  {
  }

  lemma RevokedJobOk(h: History, job: Job)
    requires JobOk(h, job) && !job.request.Login? && (job.stage.Checked? || job.stage.Minted?)
    ensures JobOk(h + [Revoked(job.request.token)], job.(stage := Finished(|h|)))
  {
    assert (h + [Revoked(job.request.token)])[..job.seen] == h[..job.seen];
  }

  // The invariant under each action.

  lemma BeginKeepsInv(cfg: Settings, s: System, id: nat, request: Request)
    requires Inv(cfg, s) && id !in s.jobs
    ensures Inv(cfg, BeginStep(s, id, request))
  {
    var job := Job(request, Started, 0);
    assert JobOk(s.history, job);
    QuietStepKeepsInv(cfg, s, BeginStep(s, id, request), id, job);
  }

  lemma FetchKeepsInv(cfg: Settings, s: System, id: nat, now: int)
    requires Collisionless(cfg) && Inv(cfg, s) && Enabled(s, Fetch(id, now))
    ensures Inv(cfg, FetchStep(cfg, s, id, now))
  {
    var after := FetchStep(cfg, s, id, now);
    EvictionKeepsCache(cfg, s, now, TokenKey(cfg, s.jobs[id].request.token));
    FetchedJobOk(cfg, s, s.jobs[id], now);
    QuietStepKeepsInv(cfg, s, after, id, after.jobs[id]);
  }

  lemma CheckKeepsInv(cfg: Settings, s: System, id: nat, now: int)
    requires Inv(cfg, s) && Enabled(s, Check(id, now))
    ensures Inv(cfg, CheckStep(s, id, now))
  {
    var after := CheckStep(s, id, now);
    var key := UserRevokedKey(s.jobs[id].stage.user);
    EvictionKeepsCache(cfg, s, now, key);
    CheckedJobOk(s.history, s.jobs[id], Lookup(s.store, now, key));
    QuietStepKeepsInv(cfg, s, after, id, after.jobs[id]);
  }

  lemma LookUpKeepsInv(cfg: Settings, s: System, id: nat, active: bool)
    requires Inv(cfg, s) && id in s.jobs && s.jobs[id].stage.Checked?
    ensures Inv(cfg, LookUpStep(s, id, active))
  {
    var after := LookUpStep(s, id, active);
    LookedUpJobOk(s.history, s.jobs[id], active);
    QuietStepKeepsInv(cfg, s, after, id, after.jobs[id]);
  }

  lemma CreateEffect(cfg: Settings, s: System, id: nat, token: string, stamp: Instant, now: int)
    requires Enabled(s, Create(id, token, stamp, now))
    ensures var job, after := s.jobs[id], CreateStep(cfg, s, id, token, stamp, now);
            && after.clock == now
            && after.history == s.history + [Issued(token, Owner(job), job.request.device, stamp, now)]
            && after.jobs == s.jobs[id := job.(stage := AfterCreate(s.history, job))]
            && after.store == s.store[TokenKey(cfg, token) :=
                 Entry(Encode(Owner(job), job.request.device, stamp), Deadline(now, Some(cfg.lifetime)))]
  {
  }

  lemma CreateKeepsCache(cfg: Settings, s: System, s': System, token: string, user: int, device: Option<string>,
                         stamp: Instant, now: int)
    requires CacheOk(cfg, s) && NeverIssued(s.history, token) && s.clock <= stamp <= now && s'.clock == now
    requires s'.history == s.history + [Issued(token, user, device, stamp, now)]
    requires s'.store == s.store[TokenKey(cfg, token) := Entry(Encode(user, device, stamp), Deadline(now, Some(cfg.lifetime)))]
    ensures CacheOk(cfg, s')
  {
    IssueKeepsStep(cfg, s.store, s.history, s.clock, Issued(token, user, device, stamp, now));
  }

  lemma CreateKeepsInv(cfg: Settings, s: System, id: nat, token: string, stamp: Instant, now: int)
    requires Inv(cfg, s) && Enabled(s, Create(id, token, stamp, now))
    ensures Inv(cfg, CreateStep(cfg, s, id, token, stamp, now))
  {
    var job, after := s.jobs[id], CreateStep(cfg, s, id, token, stamp, now);
    var e := Issued(token, Owner(job), job.request.device, stamp, now);
    CreateEffect(cfg, s, id, token, stamp, now);
    CreateKeepsCache(cfg, s, after, token, Owner(job), job.request.device, stamp, now);
    CreatedJobOk(s.history, job);
    JobOutlivesEvent(s.history, e, job.(stage := AfterCreate(s.history, job)));
    EventStepKeepsInv(cfg, s, after, e, id, job.(stage := AfterCreate(s.history, job)));
  }

  lemma RevokeKeepsInv(cfg: Settings, s: System, id: nat)
    requires Inv(cfg, s) && Enabled(s, Revoke(id))
    ensures Inv(cfg, RevokeStep(cfg, s, id))
  {
    var job, after := s.jobs[id], RevokeStep(cfg, s, id);
    ExtendRevoked(s.history, job.request.token, s.clock);
    DeleteKeepsCache(cfg, s, job.request.token);
    RevokedJobOk(s.history, job);
    EventStepKeepsInv(cfg, s, after, Revoked(job.request.token), id, job.(stage := Finished(|s.history|)));
  }

  lemma RevokeAllKeepsInv(cfg: Settings, s: System, user: int, stamp: Instant, now: int)
    requires Inv(cfg, s) && s.clock <= stamp <= now
    ensures Inv(cfg, RevokeAllStep(cfg, s, user, stamp, now))
  {
    var e := RevokedAll(user, stamp, now);
    MarkKeepsStep(cfg, s.store, s.history, s.clock, e);
    forall id | id in s.jobs ensures JobOk(s.history + [e], s.jobs[id]) {
      JobOutlivesEvent(s.history, e, s.jobs[id]);
    }
  }

  lemma StepKeepsInv(cfg: Settings, s: System, a: Action)
    requires Collisionless(cfg) && Inv(cfg, s) && Enabled(s, a)
    ensures Inv(cfg, Step(cfg, s, a))
  {
    match a
    case Begin(id, request) => BeginKeepsInv(cfg, s, id, request);
    case Fetch(id, now) => FetchKeepsInv(cfg, s, id, now);
    case Check(id, now) => CheckKeepsInv(cfg, s, id, now);
    case LookUp(id, active) => LookUpKeepsInv(cfg, s, id, active);
    case Create(id, token, stamp, now) => CreateKeepsInv(cfg, s, id, token, stamp, now);
    case Revoke(id) => RevokeKeepsInv(cfg, s, id);
    case RevokeAll(user, stamp, now) => RevokeAllKeepsInv(cfg, s, user, stamp, now);
  }

  /** However requests interleave, the cache keeps implementing the history. */
  lemma {:induction false} RunsKeepInv(cfg: Settings, start: int, actions: seq<Action>, s: System)
    requires Collisionless(cfg) && Run(cfg, Initial(start), actions) == Some(s)
    ensures Inv(cfg, s)
  {
    if actions != [] {
      var front := actions[..|actions| - 1];
      var before := Run(cfg, Initial(start), front).value;
      RunsKeepInv(cfg, start, front, before);
      StepKeepsInv(cfg, before, actions[|actions| - 1]);
    }
  }
}
