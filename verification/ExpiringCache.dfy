/** The expiring cache of pkg/registry/cache.go used by one goroutine at a time: the object and its
    methods, and the theorem that sweeping is invisible. Times are nanoseconds on one clock. */
module ExpiringCache {
  import opened Collections

  datatype CacheEntry<+T> = CacheEntry(value: T, expiry: int)

  const FIVE_MINUTES := 300_000_000_000

  /** What the fields of a Cache hold; `serialize` is the set of keys that have a mutex. */
  datatype Contents<T> = Contents(cache: map<string, CacheEntry<T>>, serialize: set<string>,
                                  lastCleanup: int, cleanUpPeriod: int, cacheDuration: int)

  function Lookup<T>(c: Contents<T>, key: string, now: int): Option<T> {
    if key in c.cache && now < c.cache[key].expiry then Some(c.cache[key].value) else None
  }

  /** The last mutation wins; without one the entry lives for CacheDuration. */
  function ExpiryOf(now: int, duration: int, mutations: seq<int>): int {
    if mutations == [] then now + duration else mutations[|mutations| - 1]
  }

  function Stored<T>(c: Contents<T>, key: string, value: T, now: int, mutations: seq<int>): Contents<T> {
    c.(cache := c.cache[key := CacheEntry(value, ExpiryOf(now, c.cacheDuration, mutations))])
  }

  predicate Expired<T>(c: Contents<T>, key: string, now: int) {
    key in c.cache && now > c.cache[key].expiry
  }

  function Swept<T>(c: Contents<T>, now: int): Contents<T> {
    var period := if c.cleanUpPeriod == 0 then FIVE_MINUTES else c.cleanUpPeriod;
    if now < c.lastCleanup + period then c.(cleanUpPeriod := period)
    else
      var gone := set key | key in c.cache && Expired(c, key, now);
      Contents(c.cache - gone, c.serialize - gone, now, period, c.cacheDuration)
  }

  /** What LoadOrCall returns: the value or the error of the call, and whether it was cached. */
  datatype Outcome<T> = Outcome(answer: Result<T>, cached: bool)

  /** LoadOrCall with the clock read at `now` by Load and at `answeredAt` by Store, when the call
      to miss would answer `answer`. */
  function LoadedOrCalled<T>(c: Contents<T>, key: string, now: int, answer: Result<T>, answeredAt: int)
    : (Contents<T>, Outcome<T>)
  {
    var locked := c.(serialize := c.serialize + {key});
    match Lookup(c, key, now)
    case Some(v) => (locked, Outcome(Ok(v), true))
    case None =>
      match answer
      case Err(_) => (locked, Outcome(answer, false))
      case Ok(v) => (Stored(locked, key, v, answeredAt, []), Outcome(answer, false))
  }

  class Cache<T> {
    var cache: map<string, CacheEntry<T>>
    var serialize: set<string>
    var lastCleanup: int
    var cleanUpPeriod: int
    var cacheDuration: int

    function State(): Contents<T>
      reads this
    {
      Contents(cache, serialize, lastCleanup, cleanUpPeriod, cacheDuration)
    }

    constructor (zeroTime: int, cacheDuration: int)
      ensures State() == Contents(map[], {}, zeroTime, 0, cacheDuration)
    {
      cache, serialize, lastCleanup, cleanUpPeriod := map[], {}, zeroTime, 0;
      this.cacheDuration := cacheDuration;
    }

    method Load(key: string, now: int) returns (value: Option<T>)
      ensures value == Lookup(State(), key, now)
    {
      if key in cache {
        var cached := cache[key];
        if now < cached.expiry {
          return Some(cached.value);
        }
      }
      return None;
    }

    method Store(key: string, value: T, now: int, mutations: seq<int>)
      modifies this
      ensures State() == Stored(old(State()), key, value, now, mutations)
    {
      var entry := CacheEntry(value, now + cacheDuration);
      for i := 0 to |mutations|
        invariant entry == CacheEntry(value, ExpiryOf(now, cacheDuration, mutations[..i]))
      {
        entry := entry.(expiry := mutations[i]);
      }
      assert mutations[..|mutations|] == mutations;
      cache := cache[key := entry];
    }

    method LoadOrCall(key: string, now: int, answer: Result<T>, answeredAt: int)
      returns (result: Outcome<T>)
      modifies this
      ensures (State(), result) == LoadedOrCalled(old(State()), key, now, answer, answeredAt)
    {
      serialize := serialize + {key};
      var entry := Load(key, now);
      if entry.Some? {
        return Outcome(Ok(entry.value), true);
      }
      if answer.Err? {
        return Outcome(answer, false);
      }
      Store(key, answer.value, answeredAt, []);
      return Outcome(answer, false);
    }

    /** The callback of Range: drop the entry and its mutex once the entry has expired. */
    method Visit(key: string, now: int)
      requires key in cache
      modifies `cache, `serialize
      ensures var gone := if Expired(old(State()), key, now) then {key} else {};
              cache == old(cache) - gone && serialize == old(serialize) - gone
    {
      var entry := cache[key];
      if now > entry.expiry {
        cache := cache - {key};
        serialize := serialize - {key};
      } else {
        assert cache == cache - {};
      }
    }

    /** Range visits the keys in an arbitrary order and deletes while it goes. */
    method Range(now: int)
      modifies `cache, `serialize
      ensures var gone := set key | key in old(cache) && Expired(old(State()), key, now);
              cache == old(cache) - gone && serialize == old(serialize) - gone
    {
      ghost var was := State();
      var toVisit := cache.Keys;
      while toVisit != {}
        invariant toVisit <= cache.Keys <= was.cache.Keys
        invariant forall key :: key in cache ==> cache[key] == was.cache[key]
        invariant forall key :: key in was.cache ==> (key in cache <==> key in toVisit || !Expired(was, key, now))
        invariant serialize <= was.serialize
        invariant forall key :: key in was.serialize ==>
          (key in serialize <==> key in toVisit || !Expired(was, key, now))
        decreases |toVisit|
      {
        var key :| key in toVisit;
        toVisit := toVisit - {key};
        Visit(key, now);
      }
    }

    method CleanUp(now: int)
      modifies this
      ensures State() == Swept(old(State()), now)
    {
      if cleanUpPeriod == 0 {
        cleanUpPeriod := FIVE_MINUTES;
      }
      if now < lastCleanup + cleanUpPeriod {
        return;
      }
      Range(now);
      lastCleanup := now;
    }
  }

  // ---------------------------------------------------------------------------------------------
  // What is found, and for how long
  // ---------------------------------------------------------------------------------------------

  /** What was stored is found exactly until CacheDuration has passed, or before the time the last
      mutation gives; all other keys are found as before. */
  lemma StoredIsFoundUntil<T>(c: Contents<T>, key: string, value: T, now: int, mutations: seq<int>,
                              expiry: int, k: string, later: int)
    ensures Lookup(Stored(c, key, value, now, []), key, later)
         == if later < now + c.cacheDuration then Some(value) else None
    ensures Lookup(Stored(c, key, value, now, mutations + [expiry]), key, later)
         == if later < expiry then Some(value) else None
    ensures k != key ==> Lookup(Stored(c, key, value, now, mutations), k, later) == Lookup(c, k, later)
  {
    assert (mutations + [expiry])[|mutations + [expiry]| - 1] == expiry;
  }

  /** A hit answers with the entry and changes what no reader finds, now or later; so does a miss
      that fails. A miss that succeeds is found until CacheDuration after the answer was stored. */
  lemma LoadOrCallIsFoundUntil<T>(c: Contents<T>, key: string, now: int, answer: Result<T>, answeredAt: int,
                                  k: string, later: int)
    ensures var (c', outcome) := LoadedOrCalled(c, key, now, answer, answeredAt);
            var live := key in c.cache && now < c.cache[key].expiry;
            && outcome == (if live then Outcome(Ok(c.cache[key].value), true) else Outcome(answer, false))
            && Lookup(c', k, later)
               == (if !live && answer.Ok? && k == key then
                     (if later < answeredAt + c.cacheDuration then Some(answer.value) else None)
                   else Lookup(c, k, later))
            && c'.serialize == c.serialize + {key}
            && (c'.lastCleanup, c'.cleanUpPeriod, c'.cacheDuration) == (c.lastCleanup, c.cleanUpPeriod, c.cacheDuration)
  {}

  /** A sweep that takes place leaves exactly the entries that have not expired, as they were, and
      takes the mutexes of the others with them; one that comes too early leaves everything. */
  lemma SweptKeepsExactly<T>(c: Contents<T>, now: int, key: string)
    ensures var period := if c.cleanUpPeriod == 0 then 5 * 60 * 1_000_000_000 else c.cleanUpPeriod;
            var c' := Swept(c, now);
            var gone := now >= c.lastCleanup + period && key in c.cache && c.cache[key].expiry < now;
            && (key in c'.cache <==> key in c.cache && !gone)
            && (key in c'.cache ==> c'.cache[key] == c.cache[key])
            && (key in c'.serialize <==> key in c.serialize && !gone)
            && c'.lastCleanup == (if now >= c.lastCleanup + period then now else c.lastCleanup)
            && c'.cleanUpPeriod == period && c'.cacheDuration == c.cacheDuration
  {}

  /** Until the period has passed since the last one, a sweep is a no-op. */
  lemma SweepsAreSpaced<T>(c: Contents<T>, now: int, next: int)
    requires c.lastCleanup + (if c.cleanUpPeriod == 0 then 5 * 60 * 1_000_000_000 else c.cleanUpPeriod) <= now
    requires next < now + if c.cleanUpPeriod == 0 then 5 * 60 * 1_000_000_000 else c.cleanUpPeriod
    ensures Swept(Swept(c, now), next) == Swept(c, now)
  {}

  // ---------------------------------------------------------------------------------------------
  // Sweeping is invisible
  // ---------------------------------------------------------------------------------------------

  /** One use of the cache, with the clock readings it makes. A sweep carries the time it was asked
      for, and the time at which it runs. */
  datatype Op<T> =
    | DoLoad(key: string, now: int)
    | DoLoadOrCall(key: string, now: int, answer: Result<T>, answeredAt: int)
    | DoStore(key: string, value: T, now: int, mutations: seq<int>)
    | DoCleanUp(now: int, runAt: int)

  datatype Seen<T> = Loaded(value: Option<T>) | Called(outcome: Outcome<T>) | Nothing

  function Step<T>(c: Contents<T>, op: Op<T>, sweeps: bool): (Contents<T>, Seen<T>) {
    match op
    case DoLoad(key, now) => (c, Loaded(Lookup(c, key, now)))
    case DoLoadOrCall(key, now, answer, at) =>
      var r := LoadedOrCalled(c, key, now, answer, at); (r.0, Called(r.1))
    case DoStore(key, value, now, mutations) => (Stored(c, key, value, now, mutations), Nothing)
    case DoCleanUp(now, _) => (if sweeps then Swept(c, now) else c, Nothing)
  }

  /** Everything the users of the cache see, in order. */
  function Observe<T>(c: Contents<T>, ops: seq<Op<T>>, sweeps: bool): seq<Seen<T>>
    decreases |ops|
  {
    if ops == [] then [] else [Step(c, ops[0], sweeps).1] + Observe(Step(c, ops[0], sweeps).0, ops[1..], sweeps)
  }

  function ClockAfter<T>(op: Op<T>): int {
    match op
    case DoLoad(_, now) => now
    case DoLoadOrCall(_, _, _, at) => at
    case DoStore(_, _, now, _) => now
    case DoCleanUp(_, at) => at
  }

  /** The clock never goes back, and no sweep is asked for a time still to come. */
  predicate Monotone<T>(clock: int, ops: seq<Op<T>>)
    decreases |ops|
  {
    ops == [] || (
      && (match ops[0]
          case DoLoad(_, now) => clock <= now
          case DoLoadOrCall(_, now, _, at) => clock <= now <= at
          case DoStore(_, _, now, _) => clock <= now
          case DoCleanUp(now, at) => clock <= at && now <= at)
      && Monotone(ClockAfter(ops[0]), ops[1..]))
  }

  /** The two caches hold the same entries, as far as a reader at or after `now` can tell. */
  ghost predicate SameFrom<T(!new)>(a: Contents<T>, b: Contents<T>, now: int) {
    && a.cacheDuration == b.cacheDuration
    && (forall key :: key in a.cache && now < a.cache[key].expiry ==> key in b.cache && b.cache[key] == a.cache[key])
    && (forall key :: key in b.cache && now < b.cache[key].expiry ==> key in a.cache && b.cache[key] == a.cache[key])
  }

  lemma StepsLookAlike<T(!new)>(a: Contents<T>, b: Contents<T>, clock: int, op: Op<T>)
    requires SameFrom(a, b, clock) && Monotone(clock, [op])
    ensures Step(a, op, true).1 == Step(b, op, false).1
    ensures SameFrom(Step(a, op, true).0, Step(b, op, false).0, ClockAfter(op))
  {}

  lemma {:induction false} SweepsAreInvisibleFrom<T(!new)>(a: Contents<T>, b: Contents<T>, clock: int, ops: seq<Op<T>>)
    requires SameFrom(a, b, clock) && Monotone(clock, ops)
    ensures Observe(a, ops, true) == Observe(b, ops, false)
    decreases |ops|
  {
    if ops == [] {
    } else {
      StepsLookAlike(a, b, clock, ops[0]);
      SweepsAreInvisibleFrom(Step(a, ops[0], true).0, Step(b, ops[0], false).0, ClockAfter(ops[0]), ops[1..]);
    }
  }

  /** Every hit, miss and value is the same with the sweeps as without them. */
  lemma SweepsAreInvisible<T(!new)>(c: Contents<T>, clock: int, ops: seq<Op<T>>)
    requires Monotone(clock, ops)
    ensures Observe(c, ops, true) == Observe(c, ops, false)
  {
    SweepsAreInvisibleFrom(c, c, clock, ops);
  }

  /** Why the sweep's time matters: a sweep that takes place goes unnoticed by readers at `now`
      exactly when it is not ahead of an entry that is still live. */
  lemma SweepUnnoticedExactlyWhen<T(!new)>(c: Contents<T>, sweptAt: int, now: int)
    requires sweptAt >= c.lastCleanup + (if c.cleanUpPeriod == 0 then FIVE_MINUTES else c.cleanUpPeriod)
    ensures (forall key :: Lookup(Swept(c, sweptAt), key, now) == Lookup(c, key, now))
       <==> !(exists key :: key in c.cache && now < c.cache[key].expiry < sweptAt)
  {
    if key :| key in c.cache && now < c.cache[key].expiry < sweptAt {
      assert Lookup(Swept(c, sweptAt), key, now) != Lookup(c, key, now);
    }
  }

  // ---------------------------------------------------------------------------------------------
  // CachedRegistry
  // ---------------------------------------------------------------------------------------------

  function CacheKey(imagePullSecret: string, image: string): string {
    imagePullSecret + ":" + image
  }

  /** CachedRegistry.ListArchs: the cache in front of a registry that would answer `answer`. The
      sweep it triggers runs last here; SweepsAreInvisible is why its place does not matter. */
  method ListArchs<T(!new)>(cache: Cache<T>, imagePullSecret: string, image: string, now: int,
                            answer: Result<T>, answeredAt: int, sweepAt: int)
    returns (archs: Result<T>, hit: bool)
    requires now <= answeredAt <= sweepAt
    modifies cache
    ensures var key := CacheKey(imagePullSecret, image);
            && hit == Lookup(old(cache.State()), key, now).Some?
            && archs == (if hit then Ok(Lookup(old(cache.State()), key, now).value) else answer)
            && (archs.Err? ==> !hit)
            && (forall k, later :: sweepAt <= later ==>
                  Lookup(cache.State(), k, later)
                  == if k == key && !hit && answer.Ok? then
                       (if later < answeredAt + old(cache.cacheDuration) then Some(answer.value) else None)
                     else Lookup(old(cache.State()), k, later))
  {
    var outcome := cache.LoadOrCall(CacheKey(imagePullSecret, image), now, answer, answeredAt);
    ghost var swept := Swept(cache.State(), sweepAt);
    forall k, later | sweepAt <= later ensures Lookup(swept, k, later) == Lookup(cache.State(), k, later) {}
    cache.CleanUp(sweepAt);
    return outcome.answer, outcome.cached;
  }
}
