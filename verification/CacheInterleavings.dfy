/** The same cache under concurrency: any number of goroutines inside LoadOrCall, interleaved with
    sweeps and with time passing. Each step is one operation on a sync.Map, one mutex operation, one
    reading of the clock, or one return of the registry. */
module CacheInterleavings {
  import opened Collections
  import ExpiringCache

  type Key = string
  type Value = string

  type Entry = ExpiringCache.CacheEntry<Value>

  /** What LoadOrCall returned; a hit remembers the entry it read and when it read the clock. */
  datatype Outcome = Hit(entry: Entry, at: int) | Fresh(value: Value) | Failed(message: string)

  /** Mutexes are numbered in the order in which they were published in `serialize`. */
  datatype Pc =
    | Start
    | Acquiring(m: nat)
    | Locked(m: nat)
    | Peeked(m: nat, seen: Option<Entry>)
    | InMiss(m: nat)
    | Answered(m: nat, value: Value, answeredAt: int)
    | Stamped(m: nat, entry: Entry)
    | Leaving(m: nat, outcome: Outcome)
    | Returned(outcome: Outcome)

  datatype Thread = Thread(key: Key, pc: Pc)

  /** The holder of cleanupAccess. */
  datatype Sweeper = Resting | Ranging(now: int) | Deleting(now: int, key: Key) | Unserialising(now: int, key: Key)

  /** A success of the registry: the goroutine it answered, and when. */
  datatype Success = Success(asker: nat, value: Value, answeredAt: int)

  /** A call of Store: whose, for which success, and the clock it read. */
  datatype Store = Store(asker: nat, value: Value, answeredAt: int, storedAt: int)

  /** `mutexes[m]` is the key mutex m was created for; `removals` lists the keys whose mutex a sweep
      removed from `serialize`; like `successes` and `stores` they only grow. */
  datatype State = State(
    clock: int, threads: seq<Thread>, cache: map<Key, Entry>, serialize: map<Key, nat>,
    mutexes: seq<Key>, owners: map<nat, nat>, sweeper: Sweeper, lastCleanup: int,
    successes: set<Success>, stores: set<Store>, removals: seq<Key>)

  /** CacheDuration, CleanUpPeriod (after its default is applied) and the keys asked for. */
  datatype Config = Config(duration: int, period: int, keyOf: seq<Key>, startClock: int, zeroTime: int)

  function Init(cfg: Config): State {
    State(cfg.startClock, seq(|cfg.keyOf|, i requires 0 <= i < |cfg.keyOf| => Thread(cfg.keyOf[i], Start)),
          map[], map[], [], map[], Resting, cfg.zeroTime, {}, {}, [])
  }

  datatype Step =
    | Tick(elapsed: nat)
    | FetchMutex(t: nat)
    | Lock(t: nat)
    | Peek(t: nat)
    | CompareExpiry(t: nat)
    | RegistryAnswers(t: nat, answer: Result<Value>)
    | Stamp(t: nat)
    | Publish(t: nat)
    | Unlock(t: nat)
    | SweepStarts(now: int)
    | SweepVisits(key: Key)
    | SweepDeletesEntry
    | SweepDeletesMutex
    | SweepEnds

  function PcOf(s: State, t: nat): Pc {
    if t < |s.threads| then s.threads[t].pc else Returned(Failed(""))
  }

  predicate Enabled(cfg: Config, s: State, step: Step) {
    match step
    case Tick(_) => true
    case FetchMutex(t) => PcOf(s, t).Start?
    case Lock(t) => PcOf(s, t).Acquiring? && PcOf(s, t).m !in s.owners
    case Peek(t) => PcOf(s, t).Locked?
    case CompareExpiry(t) => PcOf(s, t).Peeked?
    case RegistryAnswers(t, _) => PcOf(s, t).InMiss?
    case Stamp(t) => PcOf(s, t).Answered?
    case Publish(t) => PcOf(s, t).Stamped?
    case Unlock(t) => PcOf(s, t).Leaving?
    case SweepStarts(now) => s.sweeper.Resting? && now <= s.clock && now >= s.lastCleanup + cfg.period
    case SweepVisits(key) => s.sweeper.Ranging? && key in s.cache && s.sweeper.now > s.cache[key].expiry
    case SweepDeletesEntry => s.sweeper.Deleting?
    case SweepDeletesMutex => s.sweeper.Unserialising?
    case SweepEnds => s.sweeper.Ranging?
  }

  function At(s: State, t: nat, pc: Pc): State
    requires t < |s.threads|
  {
    s.(threads := s.threads[t := s.threads[t].(pc := pc)])
  }

  function Apply(cfg: Config, s: State, step: Step): State
    requires Enabled(cfg, s, step)
  {
    match step
    case Tick(elapsed) => s.(clock := s.clock + elapsed)
    case FetchMutex(t) =>
      var key := s.threads[t].key;
      if key in s.serialize then At(s, t, Acquiring(s.serialize[key]))
      else At(s, t, Acquiring(|s.mutexes|)).(serialize := s.serialize[key := |s.mutexes|], mutexes := s.mutexes + [key])
    case Lock(t) =>
      var m := s.threads[t].pc.m;
      At(s, t, Locked(m)).(owners := s.owners[m := t])
    case Peek(t) =>
      var key := s.threads[t].key;
      At(s, t, Peeked(s.threads[t].pc.m, if key in s.cache then Some(s.cache[key]) else None))
    case CompareExpiry(t) =>
      var Peeked(m, entry) := s.threads[t].pc;
      At(s, t, if entry.Some? && s.clock < entry.value.expiry then Leaving(m, Hit(entry.value, s.clock)) else InMiss(m))
    case RegistryAnswers(t, answer) =>
      var m := s.threads[t].pc.m;
      (match answer
       case Ok(v) => At(s, t, Answered(m, v, s.clock)).(successes := s.successes + {Success(t, v, s.clock)})
       case Err(e) => At(s, t, Leaving(m, Failed(e))))
    case Stamp(t) =>
      var Answered(m, v, answeredAt) := s.threads[t].pc;
      At(s, t, Stamped(m, ExpiringCache.CacheEntry(v, s.clock + cfg.duration)))
      .(stores := s.stores + {Store(t, v, answeredAt, s.clock)})
    case Publish(t) =>
      var Stamped(m, entry) := s.threads[t].pc;
      At(s, t, Leaving(m, Fresh(entry.value))).(cache := s.cache[s.threads[t].key := entry])
    case Unlock(t) =>
      var Leaving(m, outcome) := s.threads[t].pc;
      At(s, t, Returned(outcome)).(owners := s.owners - {m})
    case SweepStarts(now) => s.(sweeper := Ranging(now))
    case SweepVisits(key) => s.(sweeper := Deleting(s.sweeper.now, key))
    case SweepDeletesEntry =>
      s.(cache := s.cache - {s.sweeper.key}, sweeper := Unserialising(s.sweeper.now, s.sweeper.key))
    case SweepDeletesMutex =>
      var key := s.sweeper.key;
      s.(serialize := s.serialize - {key}, sweeper := Ranging(s.sweeper.now),
         removals := if key in s.serialize then s.removals + [key] else s.removals)
    case SweepEnds => s.(sweeper := Resting, lastCleanup := s.sweeper.now)
  }

  /** A run is the sequence of its steps. */
  ghost predicate RunsTo(cfg: Config, steps: seq<Step>, s: State) {
    if steps == [] then s == Init(cfg)
    else
      var last := steps[|steps| - 1];
      exists before ::
        RunsTo(cfg, steps[..|steps| - 1], before) && Enabled(cfg, before, last) && s == Apply(cfg, before, last)
  }

  ghost predicate Reachable(cfg: Config, s: State) {
    exists steps :: RunsTo(cfg, steps, s)
  }

  // ---------------------------------------------------------------------------------------------
  // The inductive invariant
  // ---------------------------------------------------------------------------------------------

  predicate HasMutex(pc: Pc) {
    !pc.Start? && !pc.Returned?
  }

  /** Between Lock and Unlock. */
  predicate Inside(pc: Pc) {
    HasMutex(pc) && !pc.Acquiring?
  }

  /** The goroutine has called Store. */
  predicate HasStored(pc: Pc) {
    pc.Stamped? || ((pc.Leaving? || pc.Returned?) && pc.outcome.Fresh?)
  }

  /** What is logged of a store is true: the registry gave the value to that goroutine, no later than
      the goroutine stored it, and no goroutine stores twice. */
  ghost predicate StoreInv(cfg: Config, s: State, x: Store) {
    && x.asker < |s.threads| && HasStored(s.threads[x.asker].pc)
    && Success(x.asker, x.value, x.answeredAt) in s.successes
    && x.answeredAt <= x.storedAt <= s.clock
    && forall y :: y in s.stores && y.asker == x.asker ==> y == x
  }

  ghost predicate StoresInv(cfg: Config, s: State) {
    forall x :: x in s.stores ==> StoreInv(cfg, s, x)
  }

  /** The entry is what this store wrote for the key: it expires cacheDuration after the store. */
  ghost predicate Wrote(cfg: Config, s: State, x: Store, key: Key, entry: Entry) {
    && x in s.stores && x.asker < |cfg.keyOf| && cfg.keyOf[x.asker] == key
    && entry == ExpiringCache.CacheEntry(x.value, x.storedAt + cfg.duration)
  }

  /** Some store for the key wrote the entry. */
  ghost predicate Genuine(cfg: Config, s: State, key: Key, entry: Entry) {
    exists x :: Wrote(cfg, s, x, key, entry)
  }

  /** A goroutine's mutex belongs to its key, and past Lock the goroutine owns it. */
  ghost predicate MutexInv(s: State, t: nat)
    requires t < |s.threads|
  {
    var Thread(key, pc) := s.threads[t];
    && (HasMutex(pc) ==> pc.m < |s.mutexes| && s.mutexes[pc.m] == key)
    && (Inside(pc) ==> pc.m in s.owners && s.owners[pc.m] == t)
  }

  /** The owner of a mutex is past its lock. */
  ghost predicate OwnerInv(s: State, m: nat)
    requires m in s.owners
  {
    var t := s.owners[m];
    t < |s.threads| && Inside(s.threads[t].pc) && s.threads[t].pc.m == m
  }

  ghost predicate MutexesInv(s: State) {
    && (forall t: nat :: t < |s.threads| ==> MutexInv(s, t))
    && (forall m :: m in s.owners ==> OwnerInv(s, m))
    && (forall key :: key in s.serialize ==> s.serialize[key] < |s.mutexes| && s.mutexes[s.serialize[key]] == key)
  }

  /** Every mutex made for the key is the published one or was removed by a sweep. */
  ghost predicate RemovalsInvFor(s: State, key: Key) {
    Count(s.mutexes, key) == Count(s.removals, key) + (if key in s.serialize then 1 else 0)
  }

  ghost predicate RemovalsInv(s: State) {
    forall key :: RemovalsInvFor(s, key)
  }

  /** Where the value a goroutine carries came from. */
  ghost predicate ValueInv(cfg: Config, s: State, t: nat)
    requires t < |s.threads|
  {
    var Thread(key, pc) := s.threads[t];
    match pc
    case Peeked(_, Some(entry)) => Genuine(cfg, s, key, entry)
    case Answered(_, v, at) => Success(t, v, at) in s.successes && at <= s.clock
    case Stamped(_, entry) => exists x :: Wrote(cfg, s, x, key, entry) && x.asker == t
    case Leaving(_, outcome) => OutcomeInv(cfg, s, t, key, outcome)
    case Returned(outcome) => OutcomeInv(cfg, s, t, key, outcome)
    case _ => true
  }

  ghost predicate OutcomeInv(cfg: Config, s: State, t: nat, key: Key, outcome: Outcome) {
    match outcome
    case Hit(entry, at) =>
      Genuine(cfg, s, key, entry) && entry.expiry - cfg.duration <= at < entry.expiry && at <= s.clock
    case Fresh(v) => exists x :: x in s.stores && x.asker == t && x.value == v
    case Failed(_) => true
  }

  ghost predicate ValuesInv(cfg: Config, s: State) {
    && |s.threads| == |cfg.keyOf|
    && (forall t: nat :: t < |s.threads| ==> s.threads[t].key == cfg.keyOf[t] && ValueInv(cfg, s, t))
    && (forall key :: key in s.cache ==> Genuine(cfg, s, key, s.cache[key]))
    && StoresInv(cfg, s)
  }

  ghost predicate Inv(cfg: Config, s: State) {
    MutexesInv(s) && RemovalsInv(s) && ValuesInv(cfg, s)
  }

  /** The goroutine that takes the step, or none. */
  function Mover(s: State, step: Step): nat {
    match step
    case FetchMutex(t) => t
    case Lock(t) => t
    case Peek(t) => t
    case CompareExpiry(t) => t
    case RegistryAnswers(t, _) => t
    case Stamp(t) => t
    case Publish(t) => t
    case Unlock(t) => t
    case _ => |s.threads|
  }

  lemma MoverKeepsMutex(cfg: Config, s: State, step: Step)
    requires MutexesInv(s) && Enabled(cfg, s, step) && Mover(s, step) < |s.threads|
    ensures MutexInv(Apply(cfg, s, step), Mover(s, step))
  {
    assert MutexInv(s, Mover(s, step));
  }

  lemma OthersKeepMutex(cfg: Config, s: State, step: Step, t: nat)
    requires MutexesInv(s) && Enabled(cfg, s, step) && t < |s.threads| && t != Mover(s, step)
    ensures MutexInv(Apply(cfg, s, step), t)
  {
    assert MutexInv(s, t);
    if step.Unlock? {
      assert MutexInv(s, step.t);
    }
  }

  lemma UnlockKeepsOwners(cfg: Config, s: State, t: nat, m: nat)
    requires MutexesInv(s) && Enabled(cfg, s, Unlock(t)) && m in Apply(cfg, s, Unlock(t)).owners
    ensures OwnerInv(Apply(cfg, s, Unlock(t)), m)
  {
    assert OwnerInv(s, m) && MutexInv(s, t);
  }

  lemma LockKeepsOwners(cfg: Config, s: State, t: nat, m: nat)
    requires MutexesInv(s) && Enabled(cfg, s, Lock(t)) && m in Apply(cfg, s, Lock(t)).owners
    ensures OwnerInv(Apply(cfg, s, Lock(t)), m)
  {
    assert m in s.owners ==> OwnerInv(s, m);
  }

  lemma OthersKeepOwners(cfg: Config, s: State, step: Step, m: nat)
    requires MutexesInv(s) && Enabled(cfg, s, step) && !step.Lock? && !step.Unlock? && m in s.owners
    ensures Apply(cfg, s, step).owners == s.owners && OwnerInv(Apply(cfg, s, step), m)
  {
    assert OwnerInv(s, m);
  }

  lemma StepKeepsOwners(cfg: Config, s: State, step: Step, m: nat)
    requires MutexesInv(s) && Enabled(cfg, s, step) && m in Apply(cfg, s, step).owners
    ensures OwnerInv(Apply(cfg, s, step), m)
  {
    if step.Unlock? {
      UnlockKeepsOwners(cfg, s, step.t, m);
    } else if step.Lock? {
      LockKeepsOwners(cfg, s, step.t, m);
    } else {
      OthersKeepOwners(cfg, s, step, m);
    }
  }

  lemma StepKeepsMutexes(cfg: Config, s: State, step: Step)
    requires MutexesInv(s) && Enabled(cfg, s, step)
    ensures MutexesInv(Apply(cfg, s, step))
  {
    var s' := Apply(cfg, s, step);
    forall t: nat | t < |s'.threads| ensures MutexInv(s', t) {
      if t == Mover(s, step) { MoverKeepsMutex(cfg, s, step); } else { OthersKeepMutex(cfg, s, step, t); }
    }
    forall m | m in s'.owners ensures OwnerInv(s', m) {
      StepKeepsOwners(cfg, s, step, m);
    }
  }

  lemma FetchKeepsRemovals(cfg: Config, s: State, t: nat, key: Key)
    requires RemovalsInvFor(s, key) && Enabled(cfg, s, FetchMutex(t))
    ensures RemovalsInvFor(Apply(cfg, s, FetchMutex(t)), key)
  {
    CountAppend(s.mutexes, s.threads[t].key, key);
  }

  lemma SweepKeepsRemovals(cfg: Config, s: State, key: Key)
    requires RemovalsInvFor(s, key) && Enabled(cfg, s, SweepDeletesMutex)
    ensures RemovalsInvFor(Apply(cfg, s, SweepDeletesMutex), key)
  {
    CountAppend(s.removals, s.sweeper.key, key);
  }

  lemma StepKeepsRemovals(cfg: Config, s: State, step: Step)
    requires RemovalsInv(s) && Enabled(cfg, s, step)
    ensures RemovalsInv(Apply(cfg, s, step))
  {
    forall key ensures RemovalsInvFor(Apply(cfg, s, step), key) {
      assert RemovalsInvFor(s, key);
      if step.FetchMutex? {
        FetchKeepsRemovals(cfg, s, step.t, key);
      } else if step.SweepDeletesMutex? {
        SweepKeepsRemovals(cfg, s, key);
      }
    }
  }

  /** Time goes on, histories only grow, and only Stamp logs a store. */
  lemma HistoriesGrow(cfg: Config, s: State, step: Step)
    requires Enabled(cfg, s, step)
    ensures var s' := Apply(cfg, s, step);
            && s.clock <= s'.clock && s.successes <= s'.successes && s.stores <= s'.stores
            && (!step.Stamp? ==> s'.stores == s.stores)
            && |s'.threads| == |s.threads| && forall t :: 0 <= t < |s.threads| ==> s'.threads[t].key == s.threads[t].key
  {}

  /** So what was true of an entry stays true. */
  lemma EntriesStayGenuine(cfg: Config, s: State, s': State)
    requires s.stores <= s'.stores
    ensures forall key, entry :: Genuine(cfg, s, key, entry) ==> Genuine(cfg, s', key, entry)
  {
    forall key, entry | Genuine(cfg, s, key, entry) ensures Genuine(cfg, s', key, entry) {
      var x :| Wrote(cfg, s, x, key, entry);
      assert Wrote(cfg, s', x, key, entry);
    }
  }

  lemma CompareKeepsValue(cfg: Config, s: State, t: nat)
    requires ValuesInv(cfg, s) && Enabled(cfg, s, CompareExpiry(t))
    ensures ValueInv(cfg, Apply(cfg, s, CompareExpiry(t)), t)
  {
    assert ValueInv(cfg, s, t);
    if s.threads[t].pc.seen.Some? {
      var x :| Wrote(cfg, s, x, s.threads[t].key, s.threads[t].pc.seen.value);
      assert StoreInv(cfg, s, x);
      EntriesStayGenuine(cfg, s, Apply(cfg, s, CompareExpiry(t)));
    }
  }

  lemma StampKeepsValue(cfg: Config, s: State, t: nat)
    requires ValuesInv(cfg, s) && Enabled(cfg, s, Stamp(t))
    ensures ValueInv(cfg, Apply(cfg, s, Stamp(t)), t)
  {
    var s' := Apply(cfg, s, Stamp(t));
    var Answered(_, v, answeredAt) := s.threads[t].pc;
    assert Wrote(cfg, s', Store(t, v, answeredAt, s.clock), s'.threads[t].key, s'.threads[t].pc.entry);
  }

  lemma PublishKeepsValue(cfg: Config, s: State, t: nat)
    requires ValuesInv(cfg, s) && Enabled(cfg, s, Publish(t))
    ensures ValueInv(cfg, Apply(cfg, s, Publish(t)), t)
  {
    assert ValueInv(cfg, s, t);
    var x :| Wrote(cfg, s, x, s.threads[t].key, s.threads[t].pc.entry) && x.asker == t;
    assert x in Apply(cfg, s, Publish(t)).stores;
  }

  lemma MoverKeepsValue(cfg: Config, s: State, step: Step)
    requires ValuesInv(cfg, s) && Enabled(cfg, s, step) && Mover(s, step) < |s.threads|
    ensures ValueInv(cfg, Apply(cfg, s, step), Mover(s, step))
  {
    if step.CompareExpiry? {
      CompareKeepsValue(cfg, s, step.t);
    } else if step.Stamp? {
      StampKeepsValue(cfg, s, step.t);
    } else if step.Publish? {
      PublishKeepsValue(cfg, s, step.t);
    } else {
      assert ValueInv(cfg, s, Mover(s, step));
      EntriesStayGenuine(cfg, s, Apply(cfg, s, step));
    }
  }

  lemma OthersKeepValue(cfg: Config, s: State, step: Step, t: nat)
    requires ValuesInv(cfg, s) && Enabled(cfg, s, step) && t < |s.threads| && t != Mover(s, step)
    ensures ValueInv(cfg, Apply(cfg, s, step), t)
  {
    var s' := Apply(cfg, s, step);
    assert ValueInv(cfg, s, t);
    HistoriesGrow(cfg, s, step);
    SameThreadKeepsValue(cfg, s, s', t);
  }

  lemma SameThreadKeepsValue(cfg: Config, s: State, s': State, t: nat)
    requires t < |s.threads| && t < |s'.threads| && s'.threads[t] == s.threads[t] && ValueInv(cfg, s, t)
    requires s.clock <= s'.clock && s.successes <= s'.successes && s.stores <= s'.stores
    ensures ValueInv(cfg, s', t)
  {
    forall x, key, entry | Wrote(cfg, s, x, key, entry) ensures Wrote(cfg, s', x, key, entry) {}
  }

  lemma CacheStaysGenuine(cfg: Config, s: State, step: Step, key: Key)
    requires ValuesInv(cfg, s) && Enabled(cfg, s, step) && key in Apply(cfg, s, step).cache
    ensures Genuine(cfg, Apply(cfg, s, step), key, Apply(cfg, s, step).cache[key])
  {
    var s' := Apply(cfg, s, step);
    HistoriesGrow(cfg, s, step);
    EntriesStayGenuine(cfg, s, s');
    if step.Publish? && key == s.threads[step.t].key {
      assert ValueInv(cfg, s, step.t);
      assert Genuine(cfg, s, key, s.threads[step.t].pc.entry);
    }
  }

  /** A store is logged once, with the clock as it stands. */
  lemma StampKeepsStore(cfg: Config, s: State, t: nat, x: Store)
    requires ValuesInv(cfg, s) && Enabled(cfg, s, Stamp(t)) && x in Apply(cfg, s, Stamp(t)).stores
    ensures StoreInv(cfg, Apply(cfg, s, Stamp(t)), x)
  {
    assert ValueInv(cfg, s, t);
    forall y | y in s.stores ensures y.asker != t { assert StoreInv(cfg, s, y); }
    assert x in s.stores ==> StoreInv(cfg, s, x);
  }

  lemma StaysStored(cfg: Config, s: State, step: Step, t: nat)
    requires Enabled(cfg, s, step) && t < |s.threads| && HasStored(s.threads[t].pc)
    ensures HasStored(Apply(cfg, s, step).threads[t].pc)
  {}

  lemma StepKeepsStore(cfg: Config, s: State, step: Step, x: Store)
    requires ValuesInv(cfg, s) && Enabled(cfg, s, step) && x in Apply(cfg, s, step).stores
    ensures StoreInv(cfg, Apply(cfg, s, step), x)
  {
    if step.Stamp? {
      StampKeepsStore(cfg, s, step.t, x);
    } else {
      HistoriesGrow(cfg, s, step);
      assert StoreInv(cfg, s, x);
      StaysStored(cfg, s, step, x.asker);
    }
  }

  lemma StepKeepsValues(cfg: Config, s: State, step: Step)
    requires ValuesInv(cfg, s) && Enabled(cfg, s, step)
    ensures ValuesInv(cfg, Apply(cfg, s, step))
  {
    var s' := Apply(cfg, s, step);
    HistoriesGrow(cfg, s, step);
    forall t: nat | t < |s'.threads| ensures ValueInv(cfg, s', t) {
      if t == Mover(s, step) { MoverKeepsValue(cfg, s, step); } else { OthersKeepValue(cfg, s, step, t); }
    }
    forall key | key in s'.cache ensures Genuine(cfg, s', key, s'.cache[key]) {
      CacheStaysGenuine(cfg, s, step, key);
    }
    forall x | x in s'.stores ensures StoreInv(cfg, s', x) {
      StepKeepsStore(cfg, s, step, x);
    }
  }

  lemma StepKeepsInv(cfg: Config, s: State, step: Step)
    requires Inv(cfg, s) && Enabled(cfg, s, step)
    ensures Inv(cfg, Apply(cfg, s, step))
  {
    StepKeepsMutexes(cfg, s, step);
    StepKeepsRemovals(cfg, s, step);
    StepKeepsValues(cfg, s, step);
  }

  /** The last step of a run. */
  lemma LastStep(cfg: Config, steps: seq<Step>, s: State) returns (before: State)
    requires RunsTo(cfg, steps, s) && steps != []
    ensures var last := steps[|steps| - 1];
            RunsTo(cfg, steps[..|steps| - 1], before) && Enabled(cfg, before, last) && s == Apply(cfg, before, last)
  {
    var last := steps[|steps| - 1];
    before :| RunsTo(cfg, steps[..|steps| - 1], before) && Enabled(cfg, before, last) && s == Apply(cfg, before, last);
  }

  lemma {:induction false} RunInv(cfg: Config, steps: seq<Step>, s: State)
    requires RunsTo(cfg, steps, s)
    ensures Inv(cfg, s)
  {
    if steps == [] {
    } else {
      var before := LastStep(cfg, steps, s);
      RunInv(cfg, steps[..|steps| - 1], before);
      StepKeepsInv(cfg, before, steps[|steps| - 1]);
    }
  }

  // ---------------------------------------------------------------------------------------------
  // Serialisation
  // ---------------------------------------------------------------------------------------------

  /** The goroutines that hold a mutex of the key. */
  function InsideFor(s: State, key: Key): set<nat> {
    set t: nat | t < |s.threads| && s.threads[t].key == key && Inside(s.threads[t].pc)
  }

  /** The goroutines calling the registry for the key. */
  function MissingFor(s: State, key: Key): set<nat> {
    set t: nat | t < |s.threads| && s.threads[t].key == key && s.threads[t].pc.InMiss?
  }

  /** At most as many goroutines hold distinct mutexes of a key as there are mutexes of it. */
  lemma {:induction false} DistinctMutexes(mutexes: seq<Key>, key: Key, holders: set<nat>, mutexOf: map<nat, nat>)
    requires holders <= mutexOf.Keys
    requires forall t :: t in holders ==> mutexOf[t] < |mutexes| && mutexes[mutexOf[t]] == key
    requires forall t, u :: t in holders && u in holders && mutexOf[t] == mutexOf[u] ==> t == u
    ensures |holders| <= Count(mutexes, key)
    decreases |mutexes|
  {
    if mutexes == [] {
      assert holders == {};
    } else {
      var last := |mutexes| - 1;
      assert mutexes == mutexes[..last] + [mutexes[last]];
      CountAppend(mutexes[..last], mutexes[last], key);
      if t :| t in holders && mutexOf[t] == last {
        DistinctMutexes(mutexes[..last], key, holders - {t}, mutexOf);
      } else {
        DistinctMutexes(mutexes[..last], key, holders, mutexOf);
      }
    }
  }

  /** No two goroutines past the lock of a key hold the same mutex. */
  lemma HoldersHaveOwnMutexes(s: State, key: Key)
    requires MutexesInv(s)
    ensures |InsideFor(s, key)| <= Count(s.mutexes, key)
  {
    var holders := InsideFor(s, key);
    var mutexOf: map<nat, nat> := map t: nat | t in holders :: s.threads[t].pc.m;
    forall t: nat | t in holders
      ensures mutexOf[t] < |s.mutexes| && s.mutexes[mutexOf[t]] == key
      ensures mutexOf[t] in s.owners && s.owners[mutexOf[t]] == t
    {
      assert MutexInv(s, t);
    }
    DistinctMutexes(s.mutexes, key, holders, mutexOf);
  }

  /** For every interleaving, the goroutines past the lock of a key, and so those calling the
      registry for it, number at most one more than the times a sweep removed its mutex. */
  lemma MissesAreSerialised(cfg: Config, s: State, key: Key)
    requires Reachable(cfg, s)
    ensures |MissingFor(s, key)| <= |InsideFor(s, key)| <= Count(s.removals, key) + 1
  {
    var steps :| RunsTo(cfg, steps, s);
    RunInv(cfg, steps, s);
    HoldersHaveOwnMutexes(s, key);
    assert RemovalsInvFor(s, key);
    SubsetSize(MissingFor(s, key), InsideFor(s, key));
  }

  /** No goroutine is stranded, whatever the sweeps removed: unless all have returned, one of them
      can take its next step. */
  lemma SomeThreadCanMove(cfg: Config, s: State) returns (step: Step)
    requires Reachable(cfg, s)
    requires exists t :: 0 <= t < |s.threads| && !s.threads[t].pc.Returned?
    ensures Enabled(cfg, s, step) && !step.Tick?
    ensures !step.SweepStarts? && !step.SweepVisits? && !step.SweepDeletesEntry?
    ensures !step.SweepDeletesMutex? && !step.SweepEnds?
  {
    var steps :| RunsTo(cfg, steps, s);
    RunInv(cfg, steps, s);
    var t: nat :| t < |s.threads| && !s.threads[t].pc.Returned?;
    var pc := s.threads[t].pc;
    var u: nat := if pc.Acquiring? && pc.m in s.owners then s.owners[pc.m] else t;
    step := match s.threads[u].pc
      case Start => FetchMutex(u)
      case Acquiring(_) => Lock(u)
      case Locked(_) => Peek(u)
      case Peeked(_, _) => CompareExpiry(u)
      case InMiss(_) => RegistryAnswers(u, Err(""))
      case Answered(_, _, _) => Stamp(u)
      case Stamped(_, _) => Publish(u)
      case _ => Unlock(u);
  }

  /** The goroutine is past the lock of this mutex. */
  predicate Holds(s: State, u: nat, m: nat) {
    u < |s.threads| && Inside(s.threads[u].pc) && s.threads[u].pc.m == m
  }

  /** A mutex is owned exactly while a goroutine holds it, and goroutines it keeps waiting ask for the
      key of that one. */
  lemma OwnedExactlyWhileHeld(cfg: Config, s: State, t: nat, m: nat)
    requires MutexesInv(s) && t < |s.threads| && s.threads[t].pc == Acquiring(m)
    ensures m in s.owners <==> exists u: nat :: Holds(s, u, m)
    ensures forall u: nat :: Holds(s, u, m) ==> s.threads[u].key == s.threads[t].key
  {
    assert MutexInv(s, t);
    forall u: nat | Holds(s, u, m) ensures m in s.owners && s.threads[u].key == s.threads[t].key {
      assert MutexInv(s, u);
    }
    if m in s.owners {
      assert OwnerInv(s, m);
      assert Holds(s, s.owners[m], m);
    }
  }

  /** A goroutine waits for nothing but its mutex, and for that exactly while another goroutine, asking
      for the same key, is past its lock; the registry may give any answer at any time. */
  lemma WaitsOnlyForItsKey(cfg: Config, s: State, t: nat)
    requires Reachable(cfg, s) && t < |s.threads|
    ensures match s.threads[t].pc
            case Start => Enabled(cfg, s, FetchMutex(t))
            case Acquiring(m) => Enabled(cfg, s, Lock(t)) <==> !exists u: nat :: Holds(s, u, m)
            case Locked(_) => Enabled(cfg, s, Peek(t))
            case Peeked(_, _) => Enabled(cfg, s, CompareExpiry(t))
            case InMiss(_) => forall answer :: Enabled(cfg, s, RegistryAnswers(t, answer))
            case Answered(_, _, _) => Enabled(cfg, s, Stamp(t))
            case Stamped(_, _) => Enabled(cfg, s, Publish(t))
            case Leaving(_, _) => Enabled(cfg, s, Unlock(t))
            case Returned(_) => true
    ensures s.threads[t].pc.Acquiring? ==>
              forall u: nat :: Holds(s, u, s.threads[t].pc.m) ==> s.threads[u].key == s.threads[t].key
  {
    var steps :| RunsTo(cfg, steps, s);
    RunInv(cfg, steps, s);
    if s.threads[t].pc.Acquiring? {
      OwnedExactlyWhileHeld(cfg, s, t, s.threads[t].pc.m);
    }
  }

  // ---------------------------------------------------------------------------------------------
  // Provenance
  // ---------------------------------------------------------------------------------------------

  /** A logged store for the key: the registry gave the value to a goroutine asking for that key,
      and this goroutine stored it afterwards. */
  ghost predicate StoredFor(cfg: Config, s: State, x: Store, key: Key) {
    && x in s.stores && x.asker < |cfg.keyOf| && cfg.keyOf[x.asker] == key
    && Success(x.asker, x.value, x.answeredAt) in s.successes
    && x.answeredAt <= x.storedAt <= s.clock
  }

  /** A hit is a value the registry gave for that very key, stored less than cacheDuration before
      the clock was read. No success is stored twice, so none is served for longer than that. A fresh
      value is one the registry gave to this very goroutine, which stored it. The cache holds
      nothing but what such stores wrote, so an error is never cached. */
  lemma AnswersAreGenuine(cfg: Config, s: State, t: nat)
    requires Reachable(cfg, s) && t < |s.threads|
    ensures |s.threads| == |cfg.keyOf|
    ensures forall x, y :: x in s.stores && y in s.stores && x.asker == y.asker ==> x == y
    ensures forall key :: key in s.cache ==>
      exists x :: StoredFor(cfg, s, x, key)
                  && s.cache[key] == ExpiringCache.CacheEntry(x.value, x.storedAt + cfg.duration)
    ensures s.threads[t].pc.Returned? ==>
      match s.threads[t].pc.outcome
      case Hit(entry, at) =>
        exists x :: StoredFor(cfg, s, x, cfg.keyOf[t]) && x.value == entry.value
                    && x.storedAt <= at < x.storedAt + cfg.duration && at <= s.clock
      case Fresh(v) => exists x :: StoredFor(cfg, s, x, cfg.keyOf[t]) && x.value == v && x.asker == t
      case Failed(_) => true
  {
    var steps :| RunsTo(cfg, steps, s);
    RunInv(cfg, steps, s);
    assert ValueInv(cfg, s, t);
    forall x | x in s.stores ensures StoreInv(cfg, s, x) {}
    forall x, key, entry | Wrote(cfg, s, x, key, entry) ensures StoredFor(cfg, s, x, key) {}
    forall x | x in s.stores && x.asker == t ensures StoredFor(cfg, s, x, cfg.keyOf[t]) {}
  }

  /** The store behind the value a goroutine returned. */
  lemma StoreBehind(cfg: Config, s: State, t: nat) returns (x: Store)
    requires Reachable(cfg, s) && t < |s.threads|
    requires s.threads[t].pc.Returned? && !s.threads[t].pc.outcome.Failed?
    ensures |s.threads| == |cfg.keyOf| && StoredFor(cfg, s, x, cfg.keyOf[t])
    ensures match s.threads[t].pc.outcome
            case Hit(entry, at) => x.value == entry.value && x.storedAt <= at < x.storedAt + cfg.duration
            case Fresh(v) => x.value == v && x.asker == t
  {
    AnswersAreGenuine(cfg, s, t);
    match s.threads[t].pc.outcome
    case Hit(entry, at) =>
      x :| StoredFor(cfg, s, x, cfg.keyOf[t]) && x.value == entry.value
           && x.storedAt <= at < x.storedAt + cfg.duration;
    case Fresh(v) =>
      x :| StoredFor(cfg, s, x, cfg.keyOf[t]) && x.value == v && x.asker == t;
  }

  // ---------------------------------------------------------------------------------------------
  // Why a goroutine misses
  // ---------------------------------------------------------------------------------------------

  /** The state the run was in before the step with the given number. */
  ghost predicate WasIn(cfg: Config, steps: seq<Step>, i: nat, before: State) {
    i < |steps| && RunsTo(cfg, steps[..i], before)
  }

  /** A step that is not the goroutine's own leaves the goroutine where it stands. */
  lemma OthersStandStill(cfg: Config, s: State, step: Step, t: nat)
    requires Enabled(cfg, s, step) && t < |s.threads| && t != Mover(s, step)
    ensures t < |Apply(cfg, s, step).threads| && Apply(cfg, s, step).threads[t] == s.threads[t]
  {}

  lemma EntersPeeked(cfg: Config, s: State, step: Step, t: nat)
    requires Enabled(cfg, s, step) && PcOf(Apply(cfg, s, step), t).Peeked? && t == Mover(s, step)
    ensures t < |s.threads| && step == Peek(t)
    ensures PcOf(Apply(cfg, s, step), t).seen
         == if s.threads[t].key in s.cache then Some(s.cache[s.threads[t].key]) else None
  {}

  lemma EntersInMiss(cfg: Config, s: State, step: Step, t: nat)
    requires Enabled(cfg, s, step) && PcOf(Apply(cfg, s, step), t).InMiss? && t == Mover(s, step)
    ensures step == CompareExpiry(t) && PcOf(s, t).Peeked?
    ensures var seen := PcOf(s, t).seen; seen.None? || seen.value.expiry <= s.clock
  {}

  /** What the goroutine has peeked is what the cache held when it did. */
  lemma {:induction false} PeekedWas(cfg: Config, steps: seq<Step>, s: State, t: nat)
    returns (peek: nat, found: State)
    requires RunsTo(cfg, steps, s) && t < |s.threads| && s.threads[t].pc.Peeked?
    ensures WasIn(cfg, steps, peek, found) && steps[peek] == Peek(t)
    ensures |s.threads| == |found.threads| && s.threads[t].key == found.threads[t].key
    ensures s.threads[t].pc.seen
         == if s.threads[t].key in found.cache then Some(found.cache[s.threads[t].key]) else None
  {
    assert steps != [];
    var front, last := steps[..|steps| - 1], steps[|steps| - 1];
    var before := LastStep(cfg, steps, s);
    HistoriesGrow(cfg, before, last);
    if t == Mover(before, last) {
      EntersPeeked(cfg, before, last, t);
      peek, found := |front|, before;
    } else {
      OthersStandStill(cfg, before, last, t);
      peek, found := PeekedWas(cfg, front, before, t);
      assert steps[..peek] == front[..peek];
    }
  }

  lemma {:induction false} MissedBecause(cfg: Config, steps: seq<Step>, s: State, t: nat)
    returns (compare: nat, at: State)
    requires RunsTo(cfg, steps, s) && t < |s.threads| && s.threads[t].pc.InMiss?
    ensures WasIn(cfg, steps, compare, at) && steps[compare] == CompareExpiry(t)
    ensures |s.threads| == |at.threads| && s.threads[t].key == at.threads[t].key && at.threads[t].pc.Peeked?
    ensures var seen := at.threads[t].pc.seen; seen.None? || seen.value.expiry <= at.clock
  {
    assert steps != [];
    var front, last := steps[..|steps| - 1], steps[|steps| - 1];
    var before := LastStep(cfg, steps, s);
    HistoriesGrow(cfg, before, last);
    if t == Mover(before, last) {
      EntersInMiss(cfg, before, last, t);
      compare, at := |front|, before;
    } else {
      OthersStandStill(cfg, before, last, t);
      compare, at := MissedBecause(cfg, front, before, t);
      assert steps[..compare] == front[..compare];
    }
  }

  /** The registry is not called needlessly: in every run, a goroutine that calls it looked into the
      cache before and found nothing, or an entry that had expired when it read the clock. */
  lemma MissesAreNeeded(cfg: Config, steps: seq<Step>, s: State, t: nat)
    returns (peek: nat, found: State, compare: nat, at: State)
    requires RunsTo(cfg, steps, s) && t < |s.threads| && s.threads[t].pc.InMiss?
    ensures peek < compare && WasIn(cfg, steps, peek, found) && WasIn(cfg, steps, compare, at)
    ensures steps[peek] == Peek(t) && steps[compare] == CompareExpiry(t)
    ensures var key := s.threads[t].key; key in found.cache ==> found.cache[key].expiry <= at.clock
  {
    compare, at := MissedBecause(cfg, steps, s, t);
    peek, found := PeekedWas(cfg, steps[..compare], at, t);
    assert steps[..compare][..peek] == steps[..peek];
  }

  // ---------------------------------------------------------------------------------------------
  // What a sweep may drop
  // ---------------------------------------------------------------------------------------------

  predicate IsSweepStep(step: Step) {
    step.SweepStarts? || step.SweepVisits? || step.SweepDeletesEntry? || step.SweepDeletesMutex? || step.SweepEnds?
  }

  /** The sweep's deletion of an entry is due, and the entry is live. */
  predicate AboutToDropLive(s: State) {
    s.sweeper.Deleting? && s.sweeper.key in s.cache && s.clock < s.cache[s.sweeper.key].expiry
  }

  /** The sweep was asked for a time that has come. */
  predicate SweepInTime(s: State) {
    s.sweeper.Resting? || s.sweeper.now <= s.clock
  }

  lemma StepKeepsSweepInTime(cfg: Config, s: State, step: Step)
    requires SweepInTime(s) && Enabled(cfg, s, step)
    ensures SweepInTime(Apply(cfg, s, step))
  {}

  lemma {:induction false} SweepIsNotAhead(cfg: Config, steps: seq<Step>, s: State)
    requires RunsTo(cfg, steps, s)
    ensures SweepInTime(s)
  {
    if steps == [] {
    } else {
      var before := LastStep(cfg, steps, s);
      SweepIsNotAhead(cfg, steps[..|steps| - 1], before);
      StepKeepsSweepInTime(cfg, before, steps[|steps| - 1]);
    }
  }

  /** Keys of goroutines never change. */
  lemma {:induction false} KeysAreFixed(cfg: Config, steps: seq<Step>, s: State)
    requires RunsTo(cfg, steps, s)
    ensures |s.threads| == |cfg.keyOf| && forall t :: 0 <= t < |s.threads| ==> s.threads[t].key == cfg.keyOf[t]
  {
    if steps == [] {
    } else {
      var before := LastStep(cfg, steps, s);
      KeysAreFixed(cfg, steps[..|steps| - 1], before);
      HistoriesGrow(cfg, before, steps[|steps| - 1]);
    }
  }

  /** The sweep visited the key with this step, and has done nothing since. */
  predicate VisitedAt(steps: seq<Step>, visit: nat, key: Key) {
    && visit < |steps| && steps[visit] == SweepVisits(key)
    && forall i :: visit < i < |steps| ==> !IsSweepStep(steps[i])
  }

  predicate PublishesFor(cfg: Config, step: Step, key: Key) {
    step.Publish? && step.t < |cfg.keyOf| && cfg.keyOf[step.t] == key
  }

  /** Deletion is due because this step visited the key, or was due before. */
  lemma DeletionStepsBack(cfg: Config, before: State, step: Step)
    requires Enabled(cfg, before, step) && Apply(cfg, before, step).sweeper.Deleting?
    ensures if IsSweepStep(step) then step == SweepVisits(Apply(cfg, before, step).sweeper.key)
            else before.sweeper == Apply(cfg, before, step).sweeper
  {}

  /** The visited entry has expired, so a live one was live before this step, or is published by it. */
  lemma DropStepsBack(cfg: Config, before: State, step: Step)
    requires Enabled(cfg, before, step) && AboutToDropLive(Apply(cfg, before, step)) && SweepInTime(before)
    ensures !IsSweepStep(step) && before.sweeper == Apply(cfg, before, step).sweeper
    ensures AboutToDropLive(before) || (step.Publish? && before.threads[step.t].key == before.sweeper.key)
  {}

  lemma {:induction false} DeletionsAreVisited(cfg: Config, steps: seq<Step>, s: State) returns (visit: nat)
    requires RunsTo(cfg, steps, s) && s.sweeper.Deleting?
    ensures VisitedAt(steps, visit, s.sweeper.key)
  {
    assert steps != [];
    var front := steps[..|steps| - 1];
    var before := LastStep(cfg, steps, s);
    DeletionStepsBack(cfg, before, steps[|steps| - 1]);
    if IsSweepStep(steps[|steps| - 1]) {
      visit := |front|;
    } else {
      visit := DeletionsAreVisited(cfg, front, before);
      assert forall i :: 0 <= i < |front| ==> steps[i] == front[i];
    }
  }

  lemma {:induction false} LiveDropsArePublished(cfg: Config, steps: seq<Step>, s: State, visit: nat)
    returns (publish: nat)
    requires RunsTo(cfg, steps, s) && AboutToDropLive(s) && VisitedAt(steps, visit, s.sweeper.key)
    ensures visit < publish < |steps| && PublishesFor(cfg, steps[publish], s.sweeper.key)
  {
    var front, last := steps[..|steps| - 1], steps[|steps| - 1];
    var before := LastStep(cfg, steps, s);
    SweepIsNotAhead(cfg, front, before);
    DropStepsBack(cfg, before, last);
    if AboutToDropLive(before) {
      assert VisitedAt(front, visit, before.sweeper.key);
      publish := LiveDropsArePublished(cfg, front, before, visit);
    } else {
      publish := |front|;
      KeysAreFixed(cfg, front, before);
    }
  }

  /** A sweep is about to drop a live entry only if the entry was published after the sweep visited
      its key: in every run to such a state the visit is followed by no other step of the sweep, and
      by a Publish for that key. */
  lemma LiveDropsArePublishedAfterVisit(cfg: Config, steps: seq<Step>, s: State)
    returns (visit: nat, publish: nat)
    requires RunsTo(cfg, steps, s) && AboutToDropLive(s)
    ensures VisitedAt(steps, visit, s.sweeper.key)
    ensures visit < publish < |steps| && PublishesFor(cfg, steps[publish], s.sweeper.key)
  {
    visit := DeletionsAreVisited(cfg, steps, s);
    publish := LiveDropsArePublished(cfg, steps, s, visit);
  }

  // ---------------------------------------------------------------------------------------------
  // Stretches of runs
  // ---------------------------------------------------------------------------------------------

  lemma Extend(cfg: Config, s: State, step: Step) returns (s': State)
    requires Reachable(cfg, s) && Enabled(cfg, s, step)
    ensures s' == Apply(cfg, s, step) && Reachable(cfg, s')
  {
    var steps :| RunsTo(cfg, steps, s);
    s' := Apply(cfg, s, step);
    var longer := steps + [step];
    assert longer[..|longer| - 1] == steps;
    assert RunsTo(cfg, longer[..|longer| - 1], s) && Enabled(cfg, s, longer[|longer| - 1]);
    assert RunsTo(cfg, longer, s');
  }

  /** Goroutine t looks for a live entry and finds none. */
  lemma FindsNothing(cfg: Config, s: State, t: nat) returns (s': State)
    requires Reachable(cfg, s) && t < |s.threads| && s.threads[t].pc.Locked?
    requires var key := s.threads[t].key; key in s.cache ==> s.cache[key].expiry <= s.clock
    ensures Reachable(cfg, s')
    ensures s' == At(s, t, InMiss(s.threads[t].pc.m))
  {
    s' := Extend(cfg, s, Peek(t));
    s' := Extend(cfg, s', CompareExpiry(t));
  }

  /** Goroutine t fetches its mutex, locks it, and goes past the cache to the registry. */
  lemma ReachesMiss(cfg: Config, s: State, t: nat) returns (s': State)
    requires Reachable(cfg, s) && t < |s.threads| && s.threads[t].pc.Start?
    requires var key := s.threads[t].key;
             && (key in s.cache ==> s.cache[key].expiry <= s.clock)
             && (if key in s.serialize then s.serialize[key] else |s.mutexes|) !in s.owners
    ensures Reachable(cfg, s')
    ensures var key := s.threads[t].key;
            var m := if key in s.serialize then s.serialize[key] else |s.mutexes|;
            && s'.threads == s.threads[t := Thread(key, InMiss(m))]
            && s'.serialize == s.serialize[key := m]
            && s'.mutexes == (if key in s.serialize then s.mutexes else s.mutexes + [key])
            && s'.owners == s.owners[m := t] && s'.cache == s.cache && s'.sweeper == s.sweeper
            && s'.removals == s.removals && s'.clock == s.clock && s'.lastCleanup == s.lastCleanup
  {
    s' := Extend(cfg, s, FetchMutex(t));
    s' := Extend(cfg, s', Lock(t));
    s' := FindsNothing(cfg, s', t);
  }

  /** A goroutine in its miss gets an answer and calls Store. */
  lemma CallsStore(cfg: Config, s: State, t: nat, v: Value) returns (s': State)
    requires Reachable(cfg, s) && t < |s.threads| && s.threads[t].pc.InMiss?
    ensures Reachable(cfg, s')
    ensures var entry := ExpiringCache.CacheEntry(v, s.clock + cfg.duration);
            s' == At(s, t, Stamped(s.threads[t].pc.m, entry)).(successes := s'.successes, stores := s'.stores)
  {
    s' := Extend(cfg, s, RegistryAnswers(t, Ok(v)));
    s' := Extend(cfg, s', Stamp(t));
  }

  /** A goroutine in its miss gets an answer, stores it and returns. */
  lemma LeavesMiss(cfg: Config, s: State, t: nat, v: Value) returns (s': State)
    requires Reachable(cfg, s) && t < |s.threads| && s.threads[t].pc.InMiss?
    ensures Reachable(cfg, s')
    ensures && s'.threads == s.threads[t := s.threads[t].(pc := Returned(Fresh(v)))]
            && s'.cache == s.cache[s.threads[t].key := ExpiringCache.CacheEntry(v, s.clock + cfg.duration)]
            && s'.owners == s.owners - {s.threads[t].pc.m} && s'.serialize == s.serialize && s'.mutexes == s.mutexes
            && s'.sweeper == s.sweeper && s'.removals == s.removals && s'.clock == s.clock
            && s'.lastCleanup == s.lastCleanup
  {
    s' := CallsStore(cfg, s, t, v);
    s' := Extend(cfg, s', Publish(t));
    s' := Extend(cfg, s', Unlock(t));
  }

  /** A live entry is served: the goroutine that has locked its mutex then goes on to return it. */
  lemma ServesLive(cfg: Config, s: State, t: nat) returns (s': State)
    requires Reachable(cfg, s) && t < |s.threads| && s.threads[t].pc.Locked?
    requires var key := s.threads[t].key; key in s.cache && s.clock < s.cache[key].expiry
    ensures Reachable(cfg, s')
    ensures s' == At(s, t, Leaving(s.threads[t].pc.m, Hit(s.cache[s.threads[t].key], s.clock)))
  {
    s' := Extend(cfg, s, Peek(t));
    s' := Extend(cfg, s', CompareExpiry(t));
  }

  /** A goroutine in its miss gets an error and returns it; nothing is stored. */
  lemma FailsMiss(cfg: Config, s: State, t: nat, message: string) returns (s': State)
    requires Reachable(cfg, s) && t < |s.threads| && s.threads[t].pc.InMiss?
    ensures Reachable(cfg, s')
    ensures s' == At(s, t, Returned(Failed(message))).(owners := s.owners - {s.threads[t].pc.m})
  {
    s' := Extend(cfg, s, RegistryAnswers(t, Err(message)));
    s' := Extend(cfg, s', Unlock(t));
  }

  // ---------------------------------------------------------------------------------------------
  // A goroutine, or a sweep, that meets nobody
  // ---------------------------------------------------------------------------------------------

  /** The fields as one goroutine at a time sees them. */
  function Fields(cfg: Config, s: State): ExpiringCache.Contents<Value> {
    ExpiringCache.Contents(s.cache, s.serialize.Keys, s.lastCleanup, cfg.period, cfg.duration)
  }

  /** The mutex the goroutine would get. */
  function MutexFor(s: State, key: Key): nat {
    if key in s.serialize then s.serialize[key] else |s.mutexes|
  }

  /** What a goroutine returned, as LoadOrCall's results. */
  predicate Gives(outcome: Outcome, result: ExpiringCache.Outcome<Value>) {
    match outcome
    case Hit(entry, _) => result == ExpiringCache.Outcome(Ok(entry.value), true)
    case Fresh(v) => result == ExpiringCache.Outcome(Ok(v), false)
    case Failed(message) => result == ExpiringCache.Outcome(Err(message), false)
  }

  /** Goroutine t gets a free mutex. */
  lemma GetsMutex(cfg: Config, s: State, t: nat) returns (s': State)
    requires Reachable(cfg, s) && t < |s.threads| && s.threads[t].pc.Start?
    requires MutexFor(s, s.threads[t].key) !in s.owners
    ensures Reachable(cfg, s')
    ensures var key := s.threads[t].key;
            var m := MutexFor(s, key);
            && s'.threads == s.threads[t := Thread(key, Locked(m))] && s'.serialize == s.serialize[key := m]
            && s'.owners == s.owners[m := t] && s'.owners - {m} == s.owners && s'.cache == s.cache
            && s'.lastCleanup == s.lastCleanup && s'.clock == s.clock
  {
    s' := Extend(cfg, s, FetchMutex(t));
    s' := Extend(cfg, s', Lock(t));
  }

  lemma SoloHits(cfg: Config, s: State, t: nat) returns (s': State)
    requires Reachable(cfg, s) && t < |s.threads| && s.threads[t].pc.Start?
    requires var key := s.threads[t].key;
             MutexFor(s, key) !in s.owners && key in s.cache && s.clock < s.cache[key].expiry
    ensures Reachable(cfg, s')
    ensures var key := s.threads[t].key;
            && s'.threads == s.threads[t := Thread(key, Returned(Hit(s.cache[key], s.clock)))]
            && s'.serialize == s.serialize[key := MutexFor(s, key)] && s'.owners == s.owners
            && s'.cache == s.cache && s'.lastCleanup == s.lastCleanup
  {
    s' := GetsMutex(cfg, s, t);
    s' := ServesLive(cfg, s', t);
    s' := Extend(cfg, s', Unlock(t));
  }

  /** Goroutine t calls the registry, which takes its time. */
  lemma SoloCalls(cfg: Config, s: State, t: nat, elapsed: nat) returns (s': State)
    requires Reachable(cfg, s) && t < |s.threads| && s.threads[t].pc.Start?
    requires var key := s.threads[t].key;
             MutexFor(s, key) !in s.owners && (key in s.cache ==> s.cache[key].expiry <= s.clock)
    ensures Reachable(cfg, s')
    ensures var key := s.threads[t].key;
            var m := MutexFor(s, key);
            && s'.threads == s.threads[t := Thread(key, InMiss(m))] && s'.serialize == s.serialize[key := m]
            && s'.owners - {m} == s.owners && s'.cache == s.cache
            && s'.lastCleanup == s.lastCleanup && s'.clock == s.clock + elapsed
  {
    s' := GetsMutex(cfg, s, t);
    s' := FindsNothing(cfg, s', t);
    s' := Extend(cfg, s', Tick(elapsed));
  }

  lemma SoloMisses(cfg: Config, s: State, t: nat, answer: Result<Value>, elapsed: nat) returns (s': State)
    requires Reachable(cfg, s) && t < |s.threads| && s.threads[t].pc.Start?
    requires var key := s.threads[t].key;
             MutexFor(s, key) !in s.owners && (key in s.cache ==> s.cache[key].expiry <= s.clock)
    ensures Reachable(cfg, s')
    ensures var key := s.threads[t].key;
            && s'.threads == s.threads[t := Thread(key, Returned(if answer.Ok? then Fresh(answer.value)
                                                                 else Failed(answer.message)))]
            && s'.serialize == s.serialize[key := MutexFor(s, key)] && s'.owners == s.owners
            && s'.cache == (if answer.Ok? then
                              s.cache[key := ExpiringCache.CacheEntry(answer.value, s.clock + elapsed + cfg.duration)]
                            else s.cache)
            && s'.lastCleanup == s.lastCleanup
  {
    s' := SoloCalls(cfg, s, t, elapsed);
    if answer.Ok? {
      s' := LeavesMiss(cfg, s', t, answer.value);
    } else {
      s' := FailsMiss(cfg, s', t, answer.message);
    }
  }

  /** The interleaved cache refines the sequential one: from any reachable state, a goroutine whose mutex
      is free and whose steps nobody interrupts does what LoadOrCall does, result and fields, whatever
      the registry answers and however long that takes. */
  lemma SoloIsLoadOrCall(cfg: Config, s: State, t: nat, answer: Result<Value>, elapsed: nat) returns (s': State)
    requires Reachable(cfg, s) && t < |s.threads| && s.threads[t].pc.Start?
    requires MutexFor(s, s.threads[t].key) !in s.owners
    ensures Reachable(cfg, s') && |s'.threads| == |s.threads| && s'.threads[t].pc.Returned?
    ensures s'.threads == s.threads[t := s'.threads[t]] && s'.owners == s.owners
    ensures var (fields, result) := ExpiringCache.LoadedOrCalled(Fields(cfg, s), s.threads[t].key, s.clock,
                                                                 answer, s.clock + elapsed);
            Fields(cfg, s') == fields && Gives(s'.threads[t].pc.outcome, result)
  {
    var key := s.threads[t].key;
    if key in s.cache && s.clock < s.cache[key].expiry {
      s' := SoloHits(cfg, s, t);
    } else {
      s' := SoloMisses(cfg, s, t, answer, elapsed);
    }
    assert s'.serialize.Keys == s.serialize.Keys + {key};
  }

  /** A sweep that comes to an expired entry removes it and its mutex, even while the mutex is held. */
  lemma DropsKey(cfg: Config, s: State, key: Key) returns (s': State)
    requires Reachable(cfg, s) && s.sweeper.Ranging?
    requires key in s.cache && s.cache[key].expiry < s.sweeper.now
    ensures Reachable(cfg, s')
    ensures && s'.threads == s.threads && s'.cache == s.cache - {key} && s'.serialize == s.serialize - {key}
            && s'.mutexes == s.mutexes && s'.owners == s.owners && s'.sweeper == s.sweeper
            && s'.removals == (if key in s.serialize then s.removals + [key] else s.removals)
            && s'.lastCleanup == s.lastCleanup && s'.clock == s.clock
  {
    s' := Extend(cfg, s, SweepVisits(key));
    s' := Extend(cfg, s', SweepDeletesEntry);
    s' := Extend(cfg, s', SweepDeletesMutex);
  }

  /** A sweep visits all expired keys, one after the other. */
  lemma DropsAll(cfg: Config, s: State, expired: set<Key>) returns (s': State)
    requires Reachable(cfg, s) && s.sweeper.Ranging?
    requires forall key :: key in expired ==> key in s.cache && s.cache[key].expiry < s.sweeper.now
    ensures Reachable(cfg, s')
    ensures && s'.threads == s.threads && s'.owners == s.owners && s'.sweeper == s.sweeper && s'.clock == s.clock
            && s'.cache == s.cache - expired && s'.serialize == s.serialize - expired
            && s'.lastCleanup == s.lastCleanup
    decreases |expired|
  {
    if expired == {} {
      s' := s;
      assert s.cache - {} == s.cache && s.serialize - {} == s.serialize;
    } else {
      var key :| key in expired;
      s' := DropsKey(cfg, s, key);
      s' := DropsAll(cfg, s', expired - {key});
      assert s.cache - {key} - (expired - {key}) == s.cache - expired;
      assert s.serialize - {key} - (expired - {key}) == s.serialize - expired;
    }
  }

  /** So does a sweep refine CleanUp: it can start exactly when CleanUp does not return early, visits
      exactly what has expired for it, and one that nobody interrupts does what CleanUp does. */
  lemma SoloIsCleanUp(cfg: Config, s: State, now: int) returns (s': State)
    requires Reachable(cfg, s) && s.sweeper.Resting? && now <= s.clock && cfg.period != 0
    ensures Enabled(cfg, s, SweepStarts(now)) <==> now >= s.lastCleanup + cfg.period
    ensures Reachable(cfg, s') && s'.threads == s.threads && s'.owners == s.owners && s'.sweeper.Resting?
    ensures Fields(cfg, s') == ExpiringCache.Swept(Fields(cfg, s), now)
  {
    if now < s.lastCleanup + cfg.period {
      s' := s;
    } else {
      var expired := set key | key in s.cache && s.cache[key].expiry < now;
      s' := Extend(cfg, s, SweepStarts(now));
      s' := DropsAll(cfg, s', expired);
      s' := Extend(cfg, s', SweepEnds);
      assert expired == set key | key in s.cache && ExpiringCache.Expired(Fields(cfg, s), key, now);
      assert (s.serialize - expired).Keys == s.serialize.Keys - expired;
    }
  }

  lemma VisitsExactlyExpired(cfg: Config, s: State, key: Key)
    requires s.sweeper.Ranging?
    ensures Enabled(cfg, s, SweepVisits(key)) <==> ExpiringCache.Expired(Fields(cfg, s), key, s.sweeper.now)
  {}

  /** A whole sweep over one expired entry. */
  lemma SweepsKey(cfg: Config, s: State, key: Key) returns (s': State)
    requires Reachable(cfg, s) && s.sweeper.Resting? && s.clock >= s.lastCleanup + cfg.period
    requires key in s.cache && s.cache[key].expiry < s.clock && key in s.serialize
    ensures Reachable(cfg, s')
    ensures && s'.threads == s.threads && s'.cache == s.cache - {key} && s'.serialize == s.serialize - {key}
            && s'.mutexes == s.mutexes && s'.owners == s.owners && s'.removals == s.removals + [key]
            && s'.sweeper.Resting? && s'.lastCleanup == s.clock == s'.clock
  {
    s' := Extend(cfg, s, SweepStarts(s.clock));
    s' := DropsKey(cfg, s', key);
    s' := Extend(cfg, s', SweepEnds);
  }

  // ---------------------------------------------------------------------------------------------
  // Why the bound counts removals
  // ---------------------------------------------------------------------------------------------

  /** After r rounds: r goroutines call the registry for the key, each holding a mutex that a sweep
      has removed, and the goroutines from 2 * r on have not started. */
  ghost predicate AfterRounds(cfg: Config, s: State, key: Key, r: nat) {
    && Reachable(cfg, s) && cfg.duration >= 0 && cfg.period >= 0
    && |s.threads| == |cfg.keyOf| && (forall t :: 0 <= t < |s.threads| ==> s.threads[t].key == key)
    && (forall t :: 2 * r <= t < |s.threads| ==> s.threads[t].pc.Start?)
    && |MissingFor(s, key)| == Count(s.removals, key) == r
    && (forall m :: m in s.owners ==> m < |s.mutexes|)
    && key !in s.serialize && key !in s.cache
    && s.sweeper.Resting? && s.clock >= s.lastCleanup + cfg.period
  }

  /** A first goroutine fills the cache through a fresh mutex, and its entry expires. */
  lemma FillsAndExpires(cfg: Config, s: State, t: nat, key: Key) returns (s': State)
    requires Reachable(cfg, s) && cfg.duration >= 0 && t < |s.threads| && s.threads[t] == Thread(key, Start)
    requires key !in s.cache && key !in s.serialize && |s.mutexes| !in s.owners
    ensures Reachable(cfg, s')
    ensures && s'.threads == s.threads[t := Thread(key, Returned(Fresh("")))]
            && key in s'.cache && s'.cache[key].expiry < s'.clock && s'.cache == s.cache[key := s'.cache[key]]
            && s'.serialize == s.serialize[key := |s.mutexes|] && s'.mutexes == s.mutexes + [key]
            && s'.owners == s.owners && s'.removals == s.removals && s'.sweeper == s.sweeper
            && s'.clock == s.clock + cfg.duration + 1 && s'.lastCleanup == s.lastCleanup
  {
    s' := ReachesMiss(cfg, s, t);
    s' := LeavesMiss(cfg, s', t, "");
    s' := Extend(cfg, s', Tick(cfg.duration + 1));
  }

  /** A second goroutine takes that mutex and misses; a sweep removes entry and mutex. */
  lemma MissesAndIsSwept(cfg: Config, s: State, t: nat, key: Key) returns (s': State)
    requires Reachable(cfg, s) && cfg.period >= 0 && t < |s.threads| && s.threads[t] == Thread(key, Start)
    requires key in s.cache && s.cache[key].expiry < s.clock && key in s.serialize && s.serialize[key] !in s.owners
    requires s.sweeper.Resting? && s.clock >= s.lastCleanup + cfg.period
    ensures Reachable(cfg, s')
    ensures && s'.threads == s.threads[t := Thread(key, InMiss(s.serialize[key]))]
            && s'.cache == s.cache - {key} && s'.serialize == s.serialize - {key} && s'.mutexes == s.mutexes
            && s'.owners == s.owners[s.serialize[key] := t] && s'.removals == s.removals + [key]
            && s'.sweeper.Resting? && s'.clock >= s'.lastCleanup + cfg.period
  {
    s' := ReachesMiss(cfg, s, t);
    s' := SweepsKey(cfg, s', key);
    s' := Extend(cfg, s', Tick(cfg.period));
  }

  /** One goroutine has come to call the registry, the others call it or not as before. */
  lemma OneMoreMisses(s: State, s': State, u: nat, key: Key)
    requires u < |s.threads| == |s'.threads|
    requires forall i :: 0 <= i < |s.threads| && i != u ==>
      s'.threads[i].key == s.threads[i].key && s'.threads[i].pc.InMiss? == s.threads[i].pc.InMiss?
    requires !s.threads[u].pc.InMiss? && s'.threads[u].pc.InMiss? && s'.threads[u].key == key
    ensures |MissingFor(s', key)| == |MissingFor(s, key)| + 1
  {
    assert MissingFor(s', key) == MissingFor(s, key) + {u};
  }

  lemma OneMoreRound(cfg: Config, s: State, key: Key, r: nat) returns (s': State)
    requires AfterRounds(cfg, s, key, r) && 2 * r + 1 < |s.threads|
    ensures AfterRounds(cfg, s', key, r + 1)
  {
    s' := FillsAndExpires(cfg, s, 2 * r, key);
    s' := MissesAndIsSwept(cfg, s', 2 * r + 1, key);
    CountAppend(s.removals, key, key);
    OneMoreMisses(s, s', 2 * r + 1, key);
  }

  lemma Rounds(cfg: Config, key: Key, r: nat) returns (s: State)
    requires cfg.duration >= 0 && cfg.period >= 0 && cfg.startClock >= cfg.zeroTime + cfg.period
    requires (forall t :: 0 <= t < |cfg.keyOf| ==> cfg.keyOf[t] == key) && 2 * r <= |cfg.keyOf|
    ensures AfterRounds(cfg, s, key, r)
  {
    if r == 0 {
      s := Init(cfg);
      assert RunsTo(cfg, [], s);
      assert MissingFor(s, key) == {};
    } else {
      s := Rounds(cfg, key, r - 1);
      s := OneMoreRound(cfg, s, key, r - 1);
    }
  }

  /** That happens: while a second goroutine is past the expired entry, a sweep visits it; the
      goroutine publishes its fresh entry and the sweep then deletes that. */
  lemma LiveEntryIsDropped(key: Key, duration: nat, period: nat) returns (cfg: Config, s: State)
    requires duration > 0
    ensures cfg.duration == duration && cfg.period == period && Reachable(cfg, s)
    ensures AboutToDropLive(s) && s.sweeper.key == key && Enabled(cfg, s, SweepDeletesEntry)
    ensures key !in Apply(cfg, s, SweepDeletesEntry).cache
  {
    cfg := Config(duration, period, [key, key], period, 0);
    s := Init(cfg);
    assert RunsTo(cfg, [], s);
    s := FillsAndExpires(cfg, s, 0, key);
    s := ReachesMiss(cfg, s, 1);
    s := Extend(cfg, s, SweepStarts(s.clock));
    s := Extend(cfg, s, SweepVisits(key));
    s := LeavesMiss(cfg, s, 1, "");
  }

  /** Serialisation as the comment on LoadOrCall has it, one call per key at a time, fails as soon
      as a mutex has been removed, and MissesAreSerialised cannot be improved: for every n there is a
      run with n removals and n + 1 goroutines calling the registry for one key at once. */
  lemma BoundIsReached(n: nat, key: Key, duration: nat, period: nat) returns (cfg: Config, s: State)
    ensures cfg.duration == duration && cfg.period == period && Reachable(cfg, s)
    ensures Count(s.removals, key) == n && |MissingFor(s, key)| == n + 1
  {
    cfg := Config(duration, period, seq(2 * n + 1, _ => key), period, 0);
    s := Rounds(cfg, key, n);
    var before := s;
    s := ReachesMiss(cfg, s, 2 * n);
    OneMoreMisses(before, s, 2 * n, key);
  }
}
