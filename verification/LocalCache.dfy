/** src/cache/local.py: a string cache whose expired entries are removed only when a reader
    meets them. `time()` is a parameter, in microseconds. */
module LocalCaches {
  import opened Wrappers
  import opened IsoTime

  datatype Entry = Entry(value: string, expireAt: Option<int>)
  type Store = map<string, Entry>

  predicate Expired(e: Entry, now: int) {
    e.expireAt.Some? && now > e.expireAt.value
  }

  /** No lifetime, and a lifetime of zero, mean that the entry never expires. */
  function Deadline(now: int, ttl: Option<int>): Option<int> {
    if ttl.Some? && ttl.value != 0 then Some(now + ttl.value * SECOND) else None
  }

  function Without(m: Store, key: string): Store {
    map k | k in m && k != key :: m[k]
  }

  /** What an eagerly expiring cache would hold at time `now`. */
  function Purge(m: Store, now: int): Store {
    map k | k in m && !Expired(m[k], now) :: m[k]
  }

  /** `_cleanup_expired`. */
  function CleanUp(m: Store, now: int, key: string): Store {
    if key in m && Expired(m[key], now) then Without(m, key) else m
  }

  function Lookup(m: Store, now: int, key: string): Option<string> {
    if key in m && !Expired(m[key], now) then Some(m[key].value) else None
  }

  class LocalCache {
    var store: Store

    constructor ()
      ensures store == map[]
    {
      store := map[];
    }

    method CleanUpExpired(now: int, key: string)
      modifies this
      ensures store == CleanUp(old(store), now, key)
      ensures key in store <==> Lookup(old(store), now, key).Some?
      ensures forall k | k != key :: (k in store <==> k in old(store)) && (k in store ==> store[k] == old(store)[k])
    {
      if key in store {
        var expireAt := store[key].expireAt;
        if expireAt.Some? && now > expireAt.value {
          store := map k | k in store && k != key :: store[k];
        }
      }
    }

    method Set(now: int, key: string, value: string, ttl: Option<int>)
      modifies this
      ensures store == LazyStep(old(store), now, Op.Set(key, value, ttl)).0
      ensures ttl == None || ttl == Some(0) ==> forall t :: Lookup(store, t, key) == Some(value)
      ensures ttl.Some? && ttl.value != 0 ==>
                forall t :: Lookup(store, t, key) == if t <= now + ttl.value * 1_000_000 then Some(value) else None
      ensures forall k, t | k != key :: Lookup(store, t, k) == Lookup(old(store), t, k)
    {
      var expireAt := None;
      if ttl.Some? && ttl.value != 0 {
        expireAt := Some(now + ttl.value * SECOND);
      }
      store := store[key := Entry(value, expireAt)];
    }

    method Get(now: int, key: string) returns (r: Option<string>)
      modifies this
      ensures (store, Found(r)) == LazyStep(old(store), now, Op.Get(key))
      ensures r == Lookup(old(store), now, key) && (key in store <==> r.Some?)
      ensures forall t | now <= t :: Purge(store, t) == Purge(old(store), t)
    {
      CleanUpExpired(now, key);
      if key !in store {
        r := None;
      } else {
        r := Some(store[key].value);
      }
    }

    method Delete(key: string) returns (removed: bool)
      modifies this
      ensures forall now :: (store, Flag(removed)) == LazyStep(old(store), now, Op.Delete(key))
      ensures removed <==> key in old(store)
      ensures key !in store && forall t :: Lookup(store, t, key) == None
      ensures forall k, t | k != key :: Lookup(store, t, k) == Lookup(old(store), t, k)
    {
      removed := false;
      if key in store {
        store := map k | k in store && k != key :: store[k];
        removed := true;
      }
      assert store == Without(old(store), key);
    }

    method Exists(now: int, key: string) returns (found: bool)
      modifies this
      ensures (store, Flag(found)) == LazyStep(old(store), now, Op.Exists(key))
      ensures found <==> Lookup(old(store), now, key).Some?
    {
      CleanUpExpired(now, key);
      found := key in store;
    }

    method Close()
      modifies this
      ensures store == map[]
    {
      store := map[];
    }
  }

  // ---- Lazy and eager expiry ------------------------------------------------------------

  datatype Op =
    | Set(key: string, value: string, ttl: Option<int>)
    | Get(key: string)
    | Delete(key: string)
    | Exists(key: string)
    | Close

  datatype Output = Done | Found(entry: Option<string>) | Flag(flag: bool)

  /** One call on the cache as it is. */
  function LazyStep(m: Store, now: int, op: Op): (Store, Output) {
    match op
    case Set(key, value, ttl) => (m[key := Entry(value, Deadline(now, ttl))], Done)
    case Get(key) => (CleanUp(m, now, key), Found(Lookup(m, now, key)))
    case Delete(key) => (Without(m, key), Flag(key in m))
    case Exists(key) => (CleanUp(m, now, key), Flag(Lookup(m, now, key).Some?))
    case Close => (map[], Done)
  }

  /** The same call on an ordinary map that drops every entry the moment it expires. */
  function EagerStep(m: Store, now: int, op: Op): (Store, Output) {
    var alive := Purge(m, now);
    match op
    case Set(key, value, ttl) => (Purge(alive[key := Entry(value, Deadline(now, ttl))], now), Done)
    case Get(key) => (alive, Found(if key in alive then Some(alive[key].value) else None))
    case Delete(key) => (Without(alive, key), Flag(key in alive))
    case Exists(key) => (alive, Flag(key in alive))
    case Close => (map[], Done)
  }

  datatype Call = Call(now: int, op: Op)

  predicate InOrder(calls: seq<Call>, start: int) {
    calls == [] || (start <= calls[0].now && InOrder(calls[1..], calls[0].now))
  }

  /** The answers of the two caches to one call. */
  datatype Observation = Observation(op: Op, lazy: Output, eager: Output)

  function Observe(lazy: Store, eager: Store, calls: seq<Call>): seq<Observation>
    decreases |calls|
  {
    if calls == [] then [] else
      var Call(now, op) := calls[0];
      var (l, a) := LazyStep(lazy, now, op);
      var (e, b) := EagerStep(eager, now, op);
      [Observation(op, a, b)] + Observe(l, e, calls[1..])
  }

  function LazyRun(m: Store, calls: seq<Call>): Store
    decreases |calls|
  {
    if calls == [] then m else LazyRun(LazyStep(m, calls[0].now, calls[0].op).0, calls[1..])
  }

  function EagerRun(m: Store, calls: seq<Call>): Store
    decreases |calls|
  {
    if calls == [] then m else EagerRun(EagerStep(m, calls[0].now, calls[0].op).0, calls[1..])
  }

  function LastReading(calls: seq<Call>, start: int): int {
    if calls == [] then start else calls[|calls| - 1].now
  }

  /** Every call but `delete` answers alike; `delete` may also report an entry that had expired. */
  ghost predicate Agrees(o: Observation) {
    if o.op.Delete? then o.lazy.Flag? && o.eager.Flag? && (o.eager.flag ==> o.lazy.flag)
    else o.lazy == o.eager
  }

  lemma PurgeLater(m: Store, t: int, later: int)
    requires t <= later
    ensures Purge(Purge(m, t), later) == Purge(m, later)
  {
  }

  lemma PurgeEqualLater(a: Store, b: Store, t: int, later: int)
    requires t <= later && Purge(a, t) == Purge(b, t)
    ensures Purge(a, later) == Purge(b, later)
  {
    PurgeLater(a, t, later);
    PurgeLater(b, t, later);
  }

  /** A lookup depends only on the entries that are alive. */
  lemma LookupOfPurge(m: Store, now: int, key: string)
    ensures Lookup(m, now, key) ==
            if key in Purge(m, now) then Some(Purge(m, now)[key].value) else None
  {
  }

  lemma EqualLookups(a: Store, b: Store, t: int, now: int, key: string)
    requires t <= now && Purge(a, t) == Purge(b, t)
    ensures Lookup(a, now, key) == Lookup(b, now, key)
  {
    PurgeEqualLater(a, b, t, now);
    LookupOfPurge(a, now, key);
    LookupOfPurge(b, now, key);
  }

  lemma PurgeOfUpdate(m: Store, t: int, key: string, e: Entry)
    ensures Purge(m[key := e], t) == if Expired(e, t) then Without(Purge(m, t), key) else Purge(m, t)[key := e]
  {
  }

  lemma PurgeOfWithout(m: Store, t: int, key: string)
    ensures Purge(Without(m, key), t) == Without(Purge(m, t), key)
  {
  }

  lemma PurgeOfCleanUp(m: Store, now: int, key: string)
    ensures Purge(CleanUp(m, now, key), now) == Purge(m, now)
  {
  }

  /** Two stores with the same live entries keep that under equal writes and deletes. */
  lemma SameAfterUpdate(a: Store, b: Store, t: int, now: int, key: string, e: Entry)
    requires t <= now && Purge(a, t) == Purge(b, t)
    ensures Purge(a[key := e], now) == Purge(b[key := e], now)
  {
    PurgeEqualLater(a, b, t, now);
    PurgeOfUpdate(a, now, key, e);
    PurgeOfUpdate(b, now, key, e);
  }

  lemma SameAfterWithout(a: Store, b: Store, t: int, key: string)
    requires Purge(a, t) == Purge(b, t)
    ensures Purge(Without(a, key), t) == Purge(Without(b, key), t)
  {
    PurgeOfWithout(a, t, key);
    PurgeOfWithout(b, t, key);
  }

  lemma StepAgrees(lazy: Store, eager: Store, t: int, now: int, op: Op)
    requires t <= now && Purge(lazy, t) == eager
    ensures Purge(LazyStep(lazy, now, op).0, now) == EagerStep(eager, now, op).0
    ensures Agrees(Observation(op, LazyStep(lazy, now, op).1, EagerStep(eager, now, op).1))
  {
  }

  /** Over any run with a clock that does not go back, readers cannot tell lazy expiry from
      eager expiry, and the entries alive at the end are the eager cache's entries. */
  lemma {:induction false} LazyExpiryUnobservable(lazy: Store, start: int, calls: seq<Call>)
    requires InOrder(calls, start)
    ensures forall o | o in Observe(lazy, Purge(lazy, start), calls) :: Agrees(o)
    ensures Purge(LazyRun(lazy, calls), LastReading(calls, start)) == EagerRun(Purge(lazy, start), calls)
    decreases |calls|
  {
    if calls != [] {
      var Call(now, op) := calls[0];
      StepAgrees(lazy, Purge(lazy, start), start, now, op);
      LazyExpiryUnobservable(LazyStep(lazy, now, op).0, now, calls[1..]);
      assert LastReading(calls, start) == LastReading(calls[1..], now);
    }
  }

  /** The two booleans of `delete` differ exactly when an expired entry is still stored. */
  lemma DeleteReportsPresence(lazy: Store, now: int, key: string)
    ensures LazyStep(lazy, now, Delete(key)).1 != EagerStep(Purge(lazy, now), now, Delete(key)).1
       <==> key in lazy && Expired(lazy[key], now)
  {
  }
}
