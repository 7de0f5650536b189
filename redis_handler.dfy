/** The two-tier cache of `src/lib/redis-handler.js`: a remote key/value store
    used only while an availability flag is set, backed by an in-process map whose
    entries carry an expiry time. Time is an explicit `now` in milliseconds, a
    remote transport failure is an explicit `remoteFails` flag of each call, and
    the `setTimeout` clean-up is an explicit timer event. */
module RedisHandler {
  import opened Wrappers

  /** Connection attempts after which the retry strategy gives up. */
  const RetryLimit := 3
  /** Back-off step per attempt, in milliseconds. */
  const RetryStepMs := 50
  /** Cap on the back-off delay, in milliseconds. */
  const RetryCapMs := 2000
  /** Time to live of `cacheManager.set` when the caller gives none, in seconds. */
  const DefaultTtlSeconds := 3600

  /** A memory-tier entry `{value, expiresAt}`; `expiresAt` is in milliseconds. */
  datatype Entry = Entry(value: string, expiresAt: int)

  /** Everything the module keeps between calls. */
  datatype CacheState = CacheState(available: bool, remote: map<string, string>, mem: map<string, Entry>)

  /** At module load the flag is false and the memory tier is empty; the Redis
      server, which outlives the process, holds whatever `server` it holds. */
  function Initial(server: map<string, string>): (s: CacheState)
    ensures !s.available && s.remote == server && s.mem == map[]
  {
    CacheState(false, server, map[])
  }

  function Min(a: int, b: int): int
  {
    if a <= b then a else b
  }

  /** The delay `retryStrategy(times)` returns; `None` stands for `null`, "stop retrying". */
  function RetryDelay(times: int): (delay: Option<int>)
    ensures delay.None? <==> times > RetryLimit
    ensures delay.Some? ==> delay.value == times * RetryStepMs && delay.value <= RetryLimit * RetryStepMs < RetryCapMs
  {
    if times > RetryLimit then None else Some(Min(times * RetryStepMs, RetryCapMs))
  }

  /** What `getFromCache(key)` resolves to: `null` while unavailable or after a transport error,
      otherwise the remote reply (`null` for a missing key). */
  function RemoteGet(s: CacheState, key: string, remoteFails: bool): Option<string>
  {
    if !s.available || remoteFails then None
    else if key in s.remote then Some(s.remote[key])
    else None
  }

  /** What `setInCache` resolves to: true only after a successful `setex`. */
  predicate RemoteSetSucceeds(s: CacheState, remoteFails: bool)
  {
    s.available && !remoteFails
  }

  /** The remote store after `setInCache(key, value, ttl)`. */
  function RemoteAfterSet(s: CacheState, key: string, value: string, remoteFails: bool): map<string, string>
  {
    if RemoteSetSucceeds(s, remoteFails) then s.remote[key := value] else s.remote
  }

  /** The memory tier after `setInMemoryCache(key, value, ttl)` at time `now`. */
  function MemPut(mem: map<string, Entry>, key: string, value: string, ttl: int, now: int): map<string, Entry>
  {
    mem[key := Entry(value, now + ttl * 1000)]
  }

  /** What `getFromMemoryCache(key)` returns at time `now`. */
  function MemGet(mem: map<string, Entry>, key: string, now: int): Option<string>
  {
    if key !in mem then None
    else if now > mem[key].expiresAt then None
    else Some(mem[key].value)
  }

  /** The memory tier after `getFromMemoryCache(key)` at time `now`: an expired entry is deleted. */
  function MemAfterGet(mem: map<string, Entry>, key: string, now: int): map<string, Entry>
  {
    if key in mem && now > mem[key].expiresAt then mem - {key} else mem
  }

  /** A remote reply that `cacheManager.get` accepts: JavaScript truthiness of a string. */
  predicate Truthy(v: Option<string>)
  {
    v.Some? && v.value != ""
  }

  /** Whether `cacheManager.get` answers from the remote tier. */
  predicate RemoteAnswers(s: CacheState, key: string, remoteFails: bool)
  {
    s.available && Truthy(RemoteGet(s, key, remoteFails))
  }

  /** What `cacheManager.get(key)` resolves to. */
  function CacheGet(s: CacheState, key: string, now: int, remoteFails: bool): Option<string>
  {
    if RemoteAnswers(s, key, remoteFails) then RemoteGet(s, key, remoteFails) else MemGet(s.mem, key, now)
  }

  /** The events that change the module's state. `CleanupTimer` is the timer
      `setInMemoryCache` schedules, as written; `CheckedCleanupTimer` is the
      corrected timer, which deletes the entry only once it has expired: the
      same test and deletion as a memory read (`MemAfterGet`), so that a timer
      left over from an earlier `set` of the same key cannot remove a newer
      entry. */
  datatype Event =
    | Connect
    | ConnectionError
    | InitFailure
    | Retry(times: int)
    | Get(key: string, now: int, remoteFails: bool)
    | Set(key: string, value: string, ttl: int, now: int, remoteFails: bool)
    | CleanupTimer(key: string)
    | CheckedCleanupTimer(key: string, now: int)

  function Step(s: CacheState, e: Event): CacheState
  {
    match e
    case Connect => s.(available := true)
    case ConnectionError => s.(available := false)
    case InitFailure => s.(available := false)
    case Retry(times) => if times > RetryLimit then s.(available := false) else s
    case Get(key, now, remoteFails) =>
      if RemoteAnswers(s, key, remoteFails) then s else s.(mem := MemAfterGet(s.mem, key, now))
    case Set(key, value, ttl, now, remoteFails) =>
      s.(remote := RemoteAfterSet(s, key, value, remoteFails), mem := MemPut(s.mem, key, value, ttl, now))
    case CleanupTimer(key) => s.(mem := s.mem - {key})
    case CheckedCleanupTimer(key, now) => s.(mem := MemAfterGet(s.mem, key, now))
  }

  /** The state after a sequence of events, in order. */
  function Run(s: CacheState, es: seq<Event>): CacheState
    decreases |es|
  {
    if es == [] then s else Run(Step(s, es[0]), es[1..])
  }

  /** The module-level state of `redis-handler.js`. */
  class TieredCache {
    /** `isRedisAvailable` */
    var available: bool
    /** the contents of the remote store, as seen through `redis` */
    var remote: map<string, string>
    /** `memoryCache` */
    var mem: map<string, Entry>

    function State(): CacheState
      reads this
    {
      CacheState(available, remote, mem)
    }

    /** Module load: the flag starts false, the memory tier empty, and `new
        Redis` with `lazyConnect` does not connect; `server` is what the Redis
        server already holds. */
    constructor (server: map<string, string>)
      ensures State() == Initial(server)
    {
      available := false;
      remote := server;
      mem := map[];
    }

    /** The `connect` handler. */
    method OnConnect()
      modifies this`available
      ensures available
      ensures State() == Step(old(State()), Connect)
    {
      available := true;
    }

    /** The `error` handler. */
    method OnError()
      modifies this`available
      ensures !available
      ensures State() == Step(old(State()), ConnectionError)
    {
      available := false;
    }

    /** The `catch` of `initializeRedis`. */
    method OnInitFailure()
      modifies this`available
      ensures !available
      ensures State() == Step(old(State()), InitFailure)
    {
      available := false;
    }

    /** `retryStrategy(times)`: a delay for the next attempt, or `null` after the
        retry limit, in which case the flag is cleared. */
    method RetryStrategy(times: int) returns (delay: Option<int>)
      modifies this`available
      ensures delay == RetryDelay(times)
      ensures available == (old(available) && times <= RetryLimit)
      ensures State() == Step(old(State()), Retry(times))
    {
      if times > RetryLimit {
        available := false;
        return None;
      }
      delay := Some(Min(times * RetryStepMs, RetryCapMs));
    }

    /** `getFromCache(key)`. */
    method GetFromCache(key: string, remoteFails: bool) returns (v: Option<string>)
      ensures !available ==> v == None
      ensures available && remoteFails ==> v == None
      ensures available && !remoteFails ==> v == (if key in remote then Some(remote[key]) else None)
      ensures v == RemoteGet(State(), key, remoteFails)
    {
      if !available {
        return None;
      }
      if remoteFails {
        v := None;
      } else if key in remote {
        v := Some(remote[key]);
      } else {
        v := None;
      }
    }

    /** `setInCache(key, value, ttl)`. The remote store applies the time to live itself. */
    method SetInCache(key: string, value: string, ttl: int, remoteFails: bool) returns (ok: bool)
      modifies this`remote
      ensures ok <==> available && !remoteFails
      ensures remote == if ok then old(remote)[key := value] else old(remote)
      ensures remote == RemoteAfterSet(old(State()), key, value, remoteFails)
    {
      if !available {
        return false;
      }
      if remoteFails {
        ok := false;
      } else {
        remote := remote[key := value];
        ok := true;
      }
    }

    /** `setInMemoryCache(key, value, ttl)` at time `now`; the clean-up timer it
        schedules for `now + ttl * 1000` is the separate event `FireTimer`. */
    method SetInMemoryCache(key: string, value: string, ttl: int, now: int)
      modifies this`mem
      ensures key in mem && mem[key] == Entry(value, now + ttl * 1000)
      ensures forall k :: k != key ==> (k in mem <==> k in old(mem))
      ensures forall k :: k != key && k in mem ==> mem[k] == old(mem)[k]
      ensures mem == MemPut(old(mem), key, value, ttl, now)
    {
      mem := mem[key := Entry(value, now + ttl * 1000)];
    }

    /** `getFromMemoryCache(key)` at time `now`. */
    method GetFromMemoryCache(key: string, now: int) returns (v: Option<string>)
      modifies this`mem
      ensures key !in old(mem) ==> v == None && mem == old(mem)
      ensures key in old(mem) && now > old(mem)[key].expiresAt ==> v == None && mem == old(mem) - {key}
      ensures key in old(mem) && now <= old(mem)[key].expiresAt ==> v == Some(old(mem)[key].value) && mem == old(mem)
      ensures v == MemGet(old(mem), key, now) && mem == MemAfterGet(old(mem), key, now)
    {
      if key !in mem {
        return None;
      }
      var item := mem[key];
      if now > item.expiresAt {
        mem := mem - {key};
        return None;
      }
      v := Some(item.value);
    }

    /** `cacheManager.get(key)` at time `now`. */
    method Get(key: string, now: int, remoteFails: bool) returns (v: Option<string>)
      modifies this`mem
      ensures v == CacheGet(old(State()), key, now, remoteFails)
      ensures State() == Step(old(State()), Event.Get(key, now, remoteFails))
    {
      if available {
        var remoteValue := GetFromCache(key, remoteFails);
        if remoteValue.Some? && remoteValue.value != "" {
          return remoteValue;
        }
      }
      v := GetFromMemoryCache(key, now);
    }

    /** `cacheManager.set(key, value, ttl = 3600)` at time `now`; resolves to nothing. */
    method Set(key: string, value: string, now: int, remoteFails: bool, ttl: int := DefaultTtlSeconds)
      modifies this`remote, this`mem
      ensures key in mem && mem[key] == Entry(value, now + ttl * 1000)
      ensures remote == if old(available) && !remoteFails then old(remote)[key := value] else old(remote)
      ensures State() == Step(old(State()), Event.Set(key, value, ttl, now, remoteFails))
    {
      if available {
        var ignored := SetInCache(key, value, ttl, remoteFails);
      }
      SetInMemoryCache(key, value, ttl, now);
    }

    /** The clean-up timer of `setInMemoryCache` firing: it deletes the key
        whatever entry the key holds by then. */
    method FireTimer(key: string)
      modifies this`mem
      ensures mem == old(mem) - {key}
      ensures State() == Step(old(State()), CleanupTimer(key))
    {
      mem := mem - {key};
    }

    /** The corrected clean-up timer firing at time `now`. It frees the entry
        only once `now` is past `expiresAt`, the test a read applies: a read at
        exactly `expiresAt` still returns the value. A timer that fires at
        exactly `expiresAt` therefore frees nothing, and the entry stays until
        a later read or timer removes it. */
    method FireCheckedTimer(key: string, now: int)
      modifies this`mem
      ensures key in old(mem) && now > old(mem)[key].expiresAt ==> mem == old(mem) - {key}
      ensures !(key in old(mem) && now > old(mem)[key].expiresAt) ==> mem == old(mem)
      ensures State() == Step(old(State()), CheckedCleanupTimer(key, now))
    {
      if key in mem && now > mem[key].expiresAt {
        mem := mem - {key};
      }
    }
  }

  /** With the remote tier off, a `set` with the default time to live is read
      back up to 3600 seconds later, and not a millisecond after. */
  method DefaultTtlRoundTrip(server: map<string, string>, key: string, value: string, now: int)
    returns (early: Option<string>, late: Option<string>)
    ensures early == Some(value)
    ensures late == None
  {
    var cache := new TieredCache(server);
    cache.Set(key, value, now, false);
    early := cache.Get(key, now + DefaultTtlSeconds * 1000, false);
    late := cache.Get(key, now + DefaultTtlSeconds * 1000 + 1, false);
  }

  /** The flag is written only by the connection life cycle: `connect` sets it,
      `error`, the initialisation failure and a retry past the limit clear it,
      and every cache operation and timer leaves it alone. */
  lemma AvailabilityWriters(s: CacheState, e: Event)
    ensures e.Connect? ==> Step(s, e).available
    ensures e.ConnectionError? || e.InitFailure? ==> !Step(s, e).available
    ensures e.Retry? ==> Step(s, e).available == (s.available && e.times <= RetryLimit)
    ensures !(e.Connect? || e.ConnectionError? || e.InitFailure? || e.Retry?) ==> Step(s, e).available == s.available
  {
  }

  /** While the flag is false, neither a read nor a write reaches the remote
      store: the read gives `null`, the write reports failure and the remote
      contents are unchanged. */
  lemma UnavailableSkipsRemote(s: CacheState, key: string, value: string, ttl: int, now: int, remoteFails: bool)
    requires !s.available
    ensures RemoteGet(s, key, remoteFails) == None
    ensures !RemoteSetSucceeds(s, remoteFails)
    ensures Step(s, Set(key, value, ttl, now, remoteFails)).remote == s.remote
    ensures CacheGet(s, key, now, remoteFails) == MemGet(s.mem, key, now)
  {
  }

  /** A transport failure is absorbed: the read gives `null`, the write reports
      failure, and `cacheManager.get` answers from the memory tier. */
  lemma TransportFailureAbsorbed(s: CacheState, key: string, value: string, now: int)
    ensures RemoteGet(s, key, true) == None
    ensures !RemoteSetSucceeds(s, true) && RemoteAfterSet(s, key, value, true) == s.remote
    ensures CacheGet(s, key, now, true) == MemGet(s.mem, key, now)
  {
  }

  /** `cacheManager.set` always writes the memory tier, whatever the flag and the transport. */
  lemma SetAlwaysWritesMemory(s: CacheState, key: string, value: string, ttl: int, now: int, remoteFails: bool)
    ensures Step(s, Set(key, value, ttl, now, remoteFails)).mem == MemPut(s.mem, key, value, ttl, now)
    ensures MemGet(Step(s, Set(key, value, ttl, now, remoteFails)).mem, key, now + ttl * 1000) == Some(value)
  {
  }

  /** `cacheManager.get` returns the remote value exactly when the flag is set
      and the reply is a non-empty string; otherwise it is the memory lookup. */
  lemma GetPrefersTruthyRemote(s: CacheState, key: string, now: int, remoteFails: bool)
    ensures s.available && !remoteFails && key in s.remote && s.remote[key] != ""
      ==> CacheGet(s, key, now, remoteFails) == Some(s.remote[key])
    ensures !(s.available && !remoteFails && key in s.remote && s.remote[key] != "")
      ==> CacheGet(s, key, now, remoteFails) == MemGet(s.mem, key, now)
    ensures !(s.available && !remoteFails && key in s.remote && s.remote[key] != "")
      ==> Step(s, Get(key, now, remoteFails)).mem == MemAfterGet(s.mem, key, now)
  {
  }

  /** A memory read returns the stored value up to and including `expiresAt`
      and `null` afterwards; only an expired read changes the map. */
  lemma MemGetExpiry(mem: map<string, Entry>, key: string, now: int)
    ensures key !in mem ==> MemGet(mem, key, now) == None && MemAfterGet(mem, key, now) == mem
    ensures key in mem && now <= mem[key].expiresAt
      ==> MemGet(mem, key, now) == Some(mem[key].value) && MemAfterGet(mem, key, now) == mem
    ensures key in mem && now > mem[key].expiresAt
      ==> MemGet(mem, key, now) == None && MemAfterGet(mem, key, now) == mem - {key}
  {
  }

  /** An event that keeps the remote tier off and leaves the memory entry of
      `k` to be read at time `t` alone: no `connect`, no `set` and no timer as
      written for `k`, and no read or corrected timer for `k` later than `t`. */
  predicate Quiet(e: Event, k: string, t: int)
  {
    match e
    case Connect => false
    case ConnectionError => true
    case InitFailure => true
    case Retry(_) => true
    case Get(key, now, _) => key != k || now <= t
    case Set(key, _, _, _, _) => key != k
    case CleanupTimer(key) => key != k
    case CheckedCleanupTimer(key, now) => key != k || now <= t
  }

  /** What a quiet event sequence keeps: the flag stays off, `k` holds `entry`
      or nothing, and it still holds `entry` if `t` is not past its expiry. */
  predicate Keeps(s: CacheState, k: string, entry: Entry, t: int)
  {
    && !s.available
    && (k in s.mem ==> s.mem[k] == entry)
    && (t <= entry.expiresAt ==> k in s.mem)
  }

  lemma {:induction false} QuietRunKeeps(s: CacheState, es: seq<Event>, k: string, entry: Entry, t: int)
    requires Keeps(s, k, entry, t)
    requires forall i :: 0 <= i < |es| ==> Quiet(es[i], k, t)
    ensures Keeps(Run(s, es), k, entry, t)
    decreases |es|
  {
    if es != [] {
      assert Quiet(es[0], k, t);
      var s' := Step(s, es[0]);
      assert Keeps(s', k, entry, t);
      assert forall i :: 0 <= i < |es[1..]| ==> Quiet(es[1..][i], k, t) by {
        forall i | 0 <= i < |es[1..]| ensures Quiet(es[1..][i], k, t) {
          assert es[1..][i] == es[i + 1];
        }
      }
      QuietRunKeeps(s', es[1..], k, entry, t);
    }
  }

  /** Round trip with the remote tier off: after `set(k, v, ttl)` at time
      `t0` and any quiet events, a `get(k)` at `t` returns `v` exactly when
      `t <= t0 + ttl * 1000`, and `null` after that. */
  lemma RoundTripWhileUnavailable(s: CacheState, k: string, v: string, ttl: int, t0: int,
                                  setFails: bool, es: seq<Event>, t: int, getFails: bool)
    requires !s.available
    requires forall i :: 0 <= i < |es| ==> Quiet(es[i], k, t)
    ensures CacheGet(Run(Step(s, Set(k, v, ttl, t0, setFails)), es), k, t, getFails)
            == if t <= t0 + ttl * 1000 then Some(v) else None
  {
    var entry := Entry(v, t0 + ttl * 1000);
    QuietRunKeeps(Step(s, Set(k, v, ttl, t0, setFails)), es, k, entry, t);
  }

  /** After the clean-up timer for `k` fires, with the remote tier off, a
      `get(k)` returns `null`, however many events follow that neither connect
      nor set `k` again. */
  lemma TimerEndsRoundTrip(s: CacheState, k: string, es: seq<Event>, t: int, getFails: bool)
    requires !s.available
    requires forall i :: 0 <= i < |es| ==> !es[i].Connect? && !(es[i].Set? && es[i].key == k)
    ensures CacheGet(Run(Step(s, CleanupTimer(k)), es), k, t, getFails) == None
  {
    AbsentStaysAbsent(Step(s, CleanupTimer(k)), k, es);
  }

  /** With the flag off and no `connect` or `set` of `k`, an absent `k` stays absent. */
  lemma {:induction false} AbsentStaysAbsent(s: CacheState, k: string, es: seq<Event>)
    requires !s.available && k !in s.mem
    requires forall i :: 0 <= i < |es| ==> !es[i].Connect? && !(es[i].Set? && es[i].key == k)
    ensures !Run(s, es).available && k !in Run(s, es).mem
    decreases |es|
  {
    if es != [] {
      assert !es[0].Connect? && !(es[0].Set? && es[0].key == k);
      assert forall i :: 0 <= i < |es[1..]| ==> !es[1..][i].Connect? && !(es[1..][i].Set? && es[1..][i].key == k) by {
        forall i | 0 <= i < |es[1..]| ensures !es[1..][i].Connect? && !(es[1..][i].Set? && es[1..][i].key == k) {
          assert es[1..][i] == es[i + 1];
        }
      }
      AbsentStaysAbsent(Step(s, es[0]), k, es[1..]);
    }
  }

  /** With the remote tier on and a successful write, a read within the time
      to live returns the value written, whether the read reaches the remote
      store or not (an empty value is found in the memory tier). */
  lemma RoundTripWhileAvailable(s: CacheState, k: string, v: string, ttl: int, t0: int, t: int, getFails: bool)
    requires s.available
    requires t <= t0 + ttl * 1000
    ensures CacheGet(Step(s, Set(k, v, ttl, t0, false)), k, t, getFails) == Some(v)
  {
  }

  /** A failed remote write followed by a successful remote read returns the
      older remote value, not the fresher one the memory tier holds. */
  lemma StaleRemoteShadowsFreshWrite(s: CacheState, k: string, v: string, ttl: int, t0: int, t: int)
    requires s.available && k in s.remote && s.remote[k] != ""
    ensures CacheGet(Step(s, Set(k, v, ttl, t0, true)), k, t, false) == Some(s.remote[k])
  {
  }

  /** The timer as written: `set("k", "a", 1)` at 0 schedules a clean-up for
      1000; `set("k", "b", 10)` at 500 stores an entry valid until 10500; the
      first timer then fires at 1000 and the read at 1000 finds nothing. */
  lemma StaleTimerEvictsLiveEntry(server: map<string, string>)
    ensures Run(Initial(server), [Set("k", "a", 1, 0, false), Set("k", "b", 10, 500, false)]).mem["k"] == Entry("b", 10500)
    ensures CacheGet(Run(Initial(server), [Set("k", "a", 1, 0, false), Set("k", "b", 10, 500, false), CleanupTimer("k")]), "k", 1000, false) == None
  {
  }

  /** The corrected timer is invisible to reads: firing at `now` changes the
      result of no `get`, of any key, at any later time. */
  lemma CheckedTimerInvisible(s: CacheState, key: string, now: int, k: string, t: int, remoteFails: bool)
    requires now <= t
    ensures CacheGet(Step(s, CheckedCleanupTimer(key, now)), k, t, remoteFails) == CacheGet(s, k, t, remoteFails)
  {
  }

  /** The corrected timer still frees an entry once it has expired. */
  lemma CheckedTimerFreesExpired(s: CacheState, key: string, now: int)
    requires key in s.mem && now > s.mem[key].expiresAt
    ensures key !in Step(s, CheckedCleanupTimer(key, now)).mem
  {
  }

  /** Nothing but `connect` sets the flag, so from a state with the flag off
      (module load, whatever the server holds), along any sequence of events
      without a `connect`, the remote tier stays off and untouched and every
      `get` is the memory lookup. */
  lemma NoConnectNoRemote(s0: CacheState, es: seq<Event>, key: string, now: int, remoteFails: bool)
    requires !s0.available
    requires forall i :: 0 <= i < |es| ==> !es[i].Connect?
    ensures !Run(s0, es).available && Run(s0, es).remote == s0.remote
    ensures CacheGet(Run(s0, es), key, now, remoteFails) == MemGet(Run(s0, es).mem, key, now)
  {
    NoConnectKeepsOff(s0, es);
  }

  lemma {:induction false} NoConnectKeepsOff(s: CacheState, es: seq<Event>)
    requires !s.available
    requires forall i :: 0 <= i < |es| ==> !es[i].Connect?
    ensures !Run(s, es).available && Run(s, es).remote == s.remote
    decreases |es|
  {
    if es != [] {
      assert !es[0].Connect?;
      assert forall i :: 0 <= i < |es[1..]| ==> !es[1..][i].Connect? by {
        forall i | 0 <= i < |es[1..]| ensures !es[1..][i].Connect? {
          assert es[1..][i] == es[i + 1];
        }
      }
      NoConnectKeepsOff(Step(s, es[0]), es[1..]);
    }
  }

  /** An initialisation that connects: once `connect` has fired, a successful
      `set` reaches the remote store, and a `get` within the time to live
      returns the value written. */
  lemma ConnectedSetReachesRemote(s0: CacheState, k: string, v: string, ttl: int, t0: int, t: int, getFails: bool)
    requires t <= t0 + ttl * 1000
    ensures Run(s0, [Connect, Set(k, v, ttl, t0, false)]).remote == s0.remote[k := v]
    ensures CacheGet(Run(s0, [Connect, Set(k, v, ttl, t0, false)]), k, t, getFails) == Some(v)
  {
    var write := Set(k, v, ttl, t0, false);
    var connected := Step(s0, Connect);
    RoundTripWhileAvailable(connected, k, v, ttl, t0, t, getFails);
    assert [Connect, write][1..] == [write];
    assert Run(s0, [Connect, write]) == Run(connected, [write]);
    assert [write][1..] == [];
    assert Run(connected, [write]) == Step(connected, write);
  }
}
