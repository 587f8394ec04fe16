/** Feature flags behind two levels of timed cache entries and a load lock. Times in milliseconds. */
module FeatureFlags {
  import opened Workflow

  datatype Source = Env | Database

  datatype FlagConfig = FlagConfig(enabled: bool, rollout: int)

  type Flags = map<string, FlagConfig>

  const MAX_LOCK_WAIT := 3000
  const LOCK_WAIT_INTERVAL := 50

  function Get(flags: Flags, key: string): Option<FlagConfig> {
    if key in flags then Some(flags[key]) else None
  }

  /** A cached value, the load it came from, and when it expires. */
  datatype Entry<T> = Entry(value: T, load: nat, expires: int)

  datatype Lock = Lock(token: int, expires: int)

  /** The shared cache. */
  datatype Cache = Cache(all: map<Source, Entry<Flags>>, perFlag: map<(string, Source), Entry<FlagConfig>>,
                         locks: map<Source, Lock>)

  function LiveAll(c: Cache, clock: int, src: Source): Option<Entry<Flags>> {
    if src in c.all && clock < c.all[src].expires then Some(c.all[src]) else None
  }

  function LiveFlag(c: Cache, clock: int, key: string, src: Source): Option<Entry<FlagConfig>> {
    if (key, src) in c.perFlag && clock < c.perFlag[(key, src)].expires then Some(c.perFlag[(key, src)]) else None
  }

  function LiveLock(c: Cache, clock: int, src: Source): Option<Lock> {
    if src in c.locks && clock < c.locks[src].expires then Some(c.locks[src]) else None
  }

  /** What an invalidation leaves: no entry of all flags, and every flag entry but those of the key, if one is given
      that is not empty, whatever their source. */
  ghost predicate Forgets(before: Cache, after: Cache, key: Option<string>) {
    && after.all == map[] && after.locks == before.locks
    && forall name, src ::
        if key == Some(name) && name != "" then (name, src) !in after.perFlag
        else SameEntry(before, after, name, src)
  }

  predicate SameEntry(before: Cache, after: Cache, name: string, src: Source) {
    && ((name, src) in after.perFlag <==> (name, src) in before.perFlag)
    && ((name, src) in after.perFlag ==> after.perFlag[(name, src)] == before.perFlag[(name, src)])
  }

  predicate NothingCached(c: Cache, clock: int, key: string, src: Source) {
    LiveFlag(c, clock, key, src).None? && LiveAll(c, clock, src).None?
  }

  /** The i-th look is the first to find an entry. */
  ghost predicate FirstSeen(polls: nat -> Option<Entry<Flags>>, i: nat) {
    polls(i).Some? && forall j: nat :: j < i ==> polls(j).None?
  }

  /** The flags are those of the first entry seen, at one of the 60 looks, one every 50 milliseconds. */
  ghost predicate SeenAfter(polls: nat -> Option<Entry<Flags>>, flags: Flags, load: nat, waited: int) {
    exists i: nat :: FirstSeen(polls, i) && i < 60 && waited == 50 * (i + 1)
      && polls(i).value.value == flags && polls(i).value.load == load
  }

  ghost predicate NeverSeen(polls: nat -> Option<Entry<Flags>>) {
    forall i :: polls(i).None?
  }

  lemma TwoSources(all: map<Source, Entry<Flags>>)
    ensures all - {Env} - {Database} == map[]
  {
    forall src | src in all
      ensures src in {Env, Database}
    {
      assert src == Env || src == Database;
    }
  }

  lemma BothForgotten(before: Cache, after: Cache, key: Option<string>)
    requires after.all == map[] && after.locks == before.locks
    requires after.perFlag == if key.Some?
      && key.value != "" then before.perFlag - {(key.value, Env)} - {(key.value, Database)}
             else before.perFlag
    ensures Forgets(before, after, key)
  {
    forall name: string, src: Source
      ensures if key == Some(name) && name != "" then (name, src) !in after.perFlag
              else SameEntry(before, after, name, src)
    {
      assert src == Env || src == Database;
    }
  }

  predicate HasFlag(c: Cache, key: string, src: Source, load: nat) {
    (key, src) in c.perFlag && c.perFlag[(key, src)].load == load
  }

  // ---------- the calls of one worker, the others seen only through the cache ----------

  class FlagService {
    var cache: Cache
    var clock: nat
    var loads: seq<Flags>
    const ttl: nat
    const lockTimeout: nat

    constructor (ttl: nat, lockTimeout: nat)
      ensures cache == Cache(map[], map[], map[]) && loads == []
    {
      cache, clock, loads := Cache(map[], map[], map[]), 0, [];
      this.ttl, this.lockTimeout := ttl, lockTimeout;
    }

    /** Calls the loader, which takes the given time. */
    method Load(flags: Flags, duration: nat)
      modifies this`loads, this`clock
      ensures loads == old(loads) + [flags] && clock == old(clock) + duration
    {
      loads, clock := loads + [flags], clock + duration;
    }

    /** loader: what the source holds; polls: what the i-th look at the cache finds while waiting. */
    method GetAllFlags(src: Source, token: int, loader: Flags, duration: nat, polls: nat -> Option<Entry<Flags>>)
      returns (flags: Flags, load: nat)
      modifies this
      ensures cache.perFlag == old(cache.perFlag) && cache.locks - {src} == old(cache.locks) - {src}
      ensures clock >= old(clock)
      ensures var live := LiveAll(old(cache), old(clock), src);
              live.Some? ==>
                flags == live.value.value && load == live.value.load && cache == old(cache) && loads == old(loads)
      ensures LiveAll(old(cache), old(clock), src).None? && LiveLock(old(cache), old(clock), src).None? ==>
        && loads == old(loads) + [loader] && flags == loader && load == |old(loads)|
        && cache.all == old(cache.all)[src := Entry(loader, |old(loads)|, old(clock) + duration + ttl)]
        && LiveLock(cache, clock, src).None?
      ensures LiveAll(old(cache), old(clock), src).None? && LiveLock(old(cache), old(clock), src).Some? ==>
        && cache == old(cache)
        && ((loads == old(loads) + [loader] && flags == loader && clock == old(clock) + 3000 + duration
             && load == |old(loads)| && forall i :: 0 <= i < 60 ==> polls(i).None?)
            || (loads == old(loads) && SeenAfter(polls, flags, load, clock - old(clock))))
    {
      var cached := LiveAll(cache, clock, src);
      if cached.Some? {
        return cached.value.value, cached.value.load;
      }
      if LiveLock(cache, clock, src).None? {
        cache := cache.(locks := cache.locks[src := Lock(token, clock + lockTimeout)]);
        load := |loads|;
        Load(loader, duration);
        flags := loader;
        cache := cache.(all := cache.all[src := Entry(flags, load, clock + ttl)]);
        var held := LiveLock(cache, clock, src);
        if held.Some? && held.value.token == token {
          cache := cache.(locks := cache.locks - {src});
        }
      } else {
        var start, n: nat := clock, 0;
        while clock - start < MAX_LOCK_WAIT
          invariant clock == start + n * LOCK_WAIT_INTERVAL && clock < start + MAX_LOCK_WAIT + LOCK_WAIT_INTERVAL
          invariant cache == old(cache) && loads == old(loads) && forall i :: 0 <= i < n ==> polls(i).None?
          decreases MAX_LOCK_WAIT - (clock - start)
        {
          clock := clock + LOCK_WAIT_INTERVAL;
          var seen := polls(n);
          if seen.Some? {
            assert FirstSeen(polls, n);
            return seen.value.value, seen.value.load;
          }
          n := n + 1;
        }
        load := |loads|;
        Load(loader, duration);
        flags := loader;
      }
    }

    method GetFlagConfig(key: string, src: Source, token: int, loader: Flags, duration: nat,
                         polls: nat -> Option<Entry<Flags>>)
      returns (config: Option<FlagConfig>)
      modifies this
      ensures var live := LiveFlag(old(cache), old(clock), key, src);
              live.Some? ==> config == Some(live.value.value) && cache == old(cache) && loads == old(loads)
      ensures cache.locks - {src} == old(cache.locks) - {src}
      ensures LiveFlag(old(cache), old(clock), key, src).None? && LiveAll(old(cache), old(clock), src).Some? ==>
        cache.all == old(cache.all)
        && (config.Some? ==> HasFlag(cache, key, src, LiveAll(old(cache), old(clock), src).value.load))
        && config == Get(LiveAll(old(cache), old(clock), src).value.value, key)
          && loads == old(loads)
      ensures (NothingCached(old(cache), old(clock), key, src)
               && (LiveLock(old(cache), old(clock), src).None? || NeverSeen(polls))) ==>
        config == Get(loader, key) && loads == old(loads) + [loader]
        && (config.Some? ==> HasFlag(cache, key, src, |old(loads)|))
      ensures config.None? ==> cache.perFlag == old(cache.perFlag)
      ensures config.Some? && LiveFlag(old(cache), old(clock), key, src).None? ==>
        (key, src) in cache.perFlag && cache.perFlag[(key, src)].value == config.value
        && cache.perFlag[(key, src)].expires == clock + ttl
        && cache.perFlag - {(key, src)} == old(cache.perFlag) - {(key, src)}
    {
      var cached := LiveFlag(cache, clock, key, src);
      if cached.Some? {
        return Some(cached.value.value);
      }
      var flags, load := GetAllFlags(src, token, loader, duration, polls);
      config := Get(flags, key);
      if config.Some? {
        cache := cache.(perFlag := cache.perFlag[(key, src) := Entry(config.value, load, clock + ttl)]);
      }
    }

    method InvalidateCache(key: Option<string>)
      modifies this`cache
      ensures Forgets(old(cache), cache, key)
    {
      if key.Some? && key.value != "" {
        cache := cache.(perFlag := cache.perFlag - {(key.value, Env)});
        cache := cache.(perFlag := cache.perFlag - {(key.value, Database)});
      }
      cache := cache.(all := cache.all - {Env});
      cache := cache.(all := cache.all - {Database});
      TwoSources(old(cache).all);
      BothForgotten(old(cache), cache, key);
    }
  }

  // ---------- workers interleaved, one cache access or load at a time ----------

  /** What a worker does next. Rest holds the deletions still to be made. */
  datatype Pc =
    | ReadFlag
    | ReadAll
    | TryLock
    | Loading
    | Storing(flags: Flags, load: nat)
    | Unlocking(flags: Flags, load: nat)
    | Deleting(flags: Flags, load: nat)
    | Waiting(start: int)
    | LoadingAnyway
    | Choosing(flags: Flags, load: nat)
    | Serving(config: Option<FlagConfig>, load: nat)
    | Served(config: Option<FlagConfig>, load: nat)
    | Invalidating(rest: seq<Deletion>)
    | Ended

  datatype Deletion = OfFlag(key: string, source: Source) | OfAll(source: Source)

  /** since: when the worker made its last step. */
  datatype Worker = Worker(key: string, source: Source, pc: Pc, since: int)

  /** A load: what the source held (nothing, when it failed) and when. */
  datatype Load = Load(source: Source, flags: Flags, at: int)

  datatype System = System(cache: Cache, clock: int, loads: seq<Load>, workers: map<int, Worker>)

  /** delay: no worker waits longer than this between two of its steps. */
  datatype Timing = Timing(ttl: nat, lockTimeout: nat, delay: nat)

  /** flags: what the source holds, if this step loads. */
  datatype Action = Move(worker: int, flags: Flags) | Tick(time: nat) | Evict(deletion: Deletion)
      | Join(id: int, joining: Worker)

  function Delete(c: Cache, d: Deletion): Cache {
    match d
    case OfFlag(key, src) => c.(perFlag := c.perFlag - {(key, src)})
    case OfAll(src) => c.(all := c.all - {src})
  }

  /** One step of a worker: what it does next, the cache after it, and the load it made if any. */
  function Step(t: Timing, s: System, id: int, w: Worker, flags: Flags): (r: (Pc, Cache, Option<Load>)) {
    var c := s.cache;
    match w.pc
    case ReadFlag =>
      var live := LiveFlag(c, s.clock, w.key, w.source);
      (if live.Some? then Serving(Some(live.value.value), live.value.load) else ReadAll, c, None)
    case ReadAll =>
      var live := LiveAll(c, s.clock, w.source);
      (if live.Some? then Choosing(live.value.value, live.value.load) else TryLock, c, None)
    case TryLock =>
      if LiveLock(c, s.clock, w.source).Some? then (Waiting(s.clock), c, None)
      else (Loading, c.(locks := c.locks[w.source := Lock(id, s.clock + t.lockTimeout)]), None)
    case Loading => (Storing(flags, |s.loads|), c, Some(Load(w.source, flags, s.clock)))
    case Storing(loaded, load) =>
      (Unlocking(loaded, load), c.(all := c.all[w.source := Entry(loaded, load, s.clock + t.ttl)]), None)
    case Unlocking(loaded, load) =>
      var live := LiveLock(c, s.clock, w.source);
      (if live.Some? && live.value.token == id then Deleting(loaded, load) else Choosing(loaded, load), c, None)
    case Deleting(loaded, load) => (Choosing(loaded, load), c.(locks := c.locks - {w.source}), None)
    case Waiting(start) =>
      var live := LiveAll(c, s.clock, w.source);
      (if live.Some? then Choosing(live.value.value, live.value.load)
       else if s.clock - start < MAX_LOCK_WAIT then w.pc else LoadingAnyway, c, None)
    case LoadingAnyway => (Choosing(flags, |s.loads|), c, Some(Load(w.source, flags, s.clock)))
    case Choosing(loaded, load) =>
      var config := Get(loaded, w.key);
      (Serving(config, load),
       if config.None? then c
       else c.(perFlag := c.perFlag[(w.key, w.source) := Entry(config.value, load, s.clock + t.ttl)]), None)
    case Serving(config, load) => (Served(config, load), c, None)
    case Served(_, _) => (w.pc, c, None)
    case Invalidating(rest) =>
      if rest == [] then (Ended, c, None) else (Invalidating(rest[1..]), Delete(c, rest[0]), None)
    case Ended => (w.pc, c, None)
  }

  predicate Finished(pc: Pc) {
    pc.Served? || pc.Ended?
  }

  predicate Begins(w: Worker) {
    w.pc.ReadFlag? || w.pc.Invalidating?
  }

  /** Time passes only as far as every unfinished worker's next step allows. */
  ghost predicate MayPass(t: Timing, s: System, time: nat) {
    forall id :: id in s.workers && !Finished(s.workers[id].pc) ==> s.clock + time <= s.workers[id].since + t.delay
  }

  ghost function Next(t: Timing, s: System, a: Action): System {
    match a
    case Move(id, flags) =>
      if id !in s.workers || Finished(s.workers[id].pc) then s else
      var w := s.workers[id];
      var (pc, cache, load) := Step(t, s, id, w, flags);
      System(cache, s.clock, if load.Some? then s.loads + [load.value] else s.loads,
             s.workers[id := w.(pc := pc, since := s.clock)])
    case Tick(time) => if MayPass(t, s, time) then s.(clock := s.clock + time) else s
    case Evict(d) => s.(cache := Delete(s.cache, d))
    case Join(id, w) =>
      if id in s.workers || !Begins(w) then s else s.(workers := s.workers[id := w.(since := s.clock)])
  }

  ghost function After(t: Timing, s: System, actions: seq<Action>): System {
    if actions == [] then s else
      var n := |actions| - 1;
      Next(t, After(t, s, actions[..n]), actions[n])
  }

  lemma {:induction false} AfterSnoc(t: Timing, s: System, actions: seq<Action>, a: Action)
    ensures After(t, s, actions + [a]) == Next(t, After(t, s, actions), a)
  {
    hide Next;
    assert (actions + [a])[..|actions|] == actions;
  }

  lemma {:induction false} AfterConcat(t: Timing, s: System, a: seq<Action>, b: seq<Action>)
    ensures After(t, s, a + b) == After(t, After(t, s, a), b)
  {
    hide Next;
    if b == [] {
      assert a + b == a;
    } else {
      AfterConcat(t, s, a, b[..|b| - 1]);
      assert (a + b)[..|a + b| - 1] == a + b[..|b| - 1];
    }
  }

  predicate Empty(s: System) {
    s.cache == Cache(map[], map[], map[]) && s.loads == [] && s.workers == map[]
  }

  // ---------- how old a served configuration can be ----------

  function Max(a: int, b: int): int {
    if a >= b then a else b
  }

  /** The flags come from load number n, which was at most age before the given time. */
  predicate FromLoad(s: System, src: Source, n: nat, time: int, age: int) {
    n < |s.loads| && s.loads[n].source == src && time <= s.loads[n].at + age
  }

  function ChoosingAge(t: Timing): int {
    Max(t.ttl + t.delay, 3 * t.delay)
  }

  function ServedAge(t: Timing): int {
    t.ttl + ChoosingAge(t) + 2 * t.delay
  }

  /** What a worker holds was loaded, and not long before its last step. */
  predicate Held(t: Timing, s: System, w: Worker) {
    match w.pc
    case Storing(flags, n) => FromLoad(s, w.source, n, w.since, 0) && flags == s.loads[n].flags
    case Unlocking(flags, n) => FromLoad(s, w.source, n, w.since, t.delay) && flags == s.loads[n].flags
    case Deleting(flags, n) => FromLoad(s, w.source, n, w.since, 2 * t.delay) && flags == s.loads[n].flags
    case Choosing(flags, n) => FromLoad(s, w.source, n, w.since, ChoosingAge(t)) && flags == s.loads[n].flags
    case Serving(config, n) => FromLoad(s, w.source, n, w.since, ServedAge(t) - t.delay)
      && config == Get(s.loads[n].flags, w.key)
    case Served(config, n) => FromLoad(s, w.source, n, w.since, ServedAge(t)) && config == Get(s.loads[n].flags, w.key)
    case _ => true
  }

  predicate AllHeld(t: Timing, s: System, src: Source, e: Entry<Flags>) {
    FromLoad(s, src, e.load, e.expires, t.delay + t.ttl) && e.value == s.loads[e.load].flags
  }

  predicate FlagHeld(t: Timing, s: System, key: string, src: Source, e: Entry<FlagConfig>) {
    FromLoad(s, src, e.load, e.expires, ServedAge(t) - t.delay) && Some(e.value) == Get(s.loads[e.load].flags, key)
  }

  ghost predicate WorkersHeld(t: Timing, s: System) {
    forall id :: id in s.workers ==> Held(t, s, s.workers[id])
  }

  ghost predicate CacheHeld(t: Timing, s: System) {
    && (forall src :: src in s.cache.all ==> AllHeld(t, s, src, s.cache.all[src]))
    && (forall k :: k in s.cache.perFlag ==> FlagHeld(t, s, k.0, k.1, s.cache.perFlag[k]))
  }

  /** No unfinished worker is late, and no step lies in the future. */
  ghost predicate OnTime(t: Timing, s: System) {
    forall id :: id in s.workers ==> Punctual(t, s.clock, s.workers[id])
  }

  predicate Punctual(t: Timing, clock: int, w: Worker) {
    w.since <= clock && (!Finished(w.pc) ==> clock <= w.since + t.delay)
  }

  ghost predicate Inv(t: Timing, s: System) {
    WorkersHeld(t, s) && CacheHeld(t, s) && OnTime(t, s)
  }

  /** The worker's step, seen on its own: what it holds next and what it puts in the cache. */
  lemma StepHeld(t: Timing, s: System, id: int, w: Worker, flags: Flags)
    requires Held(t, s, w) && Punctual(t, s.clock, w) && CacheHeld(t, s) && !Finished(w.pc)
    ensures var (pc, cache, load) := Step(t, s, id, w, flags);
            var s' := s.(loads := if load.Some? then s.loads + [load.value] else s.loads);
            Held(t, s', w.(pc := pc, since := s.clock))
  {
  }

  lemma StepCacheHeld(t: Timing, s: System, id: int, w: Worker, flags: Flags)
    requires Held(t, s, w) && Punctual(t, s.clock, w) && CacheHeld(t, s) && !Finished(w.pc)
    ensures var (pc, cache, load) := Step(t, s, id, w, flags);
            CacheHeld(t, s.(cache := cache))
  {
  }

  /** More loads leave what was held as it was. */
  lemma LoadKeepsHeld(t: Timing, s: System, s': System, w: Worker)
    requires Held(t, s, w) && s.loads <= s'.loads
    ensures Held(t, s', w)
  {
  }

  lemma LoadKeepsCache(t: Timing, s: System, s': System)
    requires CacheHeld(t, s) && s.loads <= s'.loads && s.cache == s'.cache
    ensures CacheHeld(t, s')
  {
  }

  lemma MoveKeepsInv(t: Timing, s: System, id: int, flags: Flags)
    requires Inv(t, s) && id in s.workers && !Finished(s.workers[id].pc)
    ensures Inv(t, Next(t, s, Move(id, flags)))
  {
    hide Held, Step, CacheHeld;
    var w := s.workers[id];
    var s' := Next(t, s, Move(id, flags));
    var (pc, cache, load) := Step(t, s, id, w, flags);
    StepHeld(t, s, id, w, flags);
    StepCacheHeld(t, s, id, w, flags);
    LoadKeepsCache(t, s.(cache := cache), s');
    LoadKeepsHeld(t, s.(loads := s'.loads), s', w.(pc := pc, since := s.clock));
    forall j | j in s.workers && j != id
      ensures Held(t, s', s'.workers[j])
    {
      LoadKeepsHeld(t, s, s', s.workers[j]);
    }
  }

  lemma TickKeepsInv(t: Timing, s: System, time: nat)
    requires Inv(t, s)
    ensures Inv(t, Next(t, s, Tick(time)))
  {
    hide Held, CacheHeld;
    var s' := Next(t, s, Tick(time));
    LoadKeepsCache(t, s, s');
    forall id | id in s.workers
      ensures Held(t, s', s.workers[id])
    {
      LoadKeepsHeld(t, s, s', s.workers[id]);
    }
  }

  lemma EvictKeepsInv(t: Timing, s: System, d: Deletion)
    requires Inv(t, s)
    ensures Inv(t, Next(t, s, Evict(d)))
  {
    var s' := Next(t, s, Evict(d));
    assert CacheHeld(t, s') by {
      hide FromLoad, ServedAge;
    }
    hide Held, CacheHeld;
    forall id | id in s.workers
      ensures Held(t, s', s.workers[id])
    {
      LoadKeepsHeld(t, s, s', s.workers[id]);
    }
  }

  lemma JoinKeepsInv(t: Timing, s: System, id: int, w: Worker)
    requires Inv(t, s)
    ensures Inv(t, Next(t, s, Join(id, w)))
  {
    var s' := Next(t, s, Join(id, w));
    assert Begins(w) ==> Held(t, s', w.(since := s.clock));
    hide Held, CacheHeld;
    LoadKeepsCache(t, s, s');
    forall k | k in s.workers
      ensures Held(t, s', s.workers[k])
    {
      LoadKeepsHeld(t, s, s', s.workers[k]);
    }
  }

  lemma NextKeepsInv(t: Timing, s: System, a: Action)
    requires Inv(t, s)
    ensures Inv(t, Next(t, s, a))
  {
    hide Inv;
    match a
    case Move(id, flags) =>
      if id in s.workers && !Finished(s.workers[id].pc) {
        MoveKeepsInv(t, s, id, flags);
      }
    case Tick(time) => TickKeepsInv(t, s, time);
    case Evict(d) => EvictKeepsInv(t, s, d);
    case Join(id, w) => JoinKeepsInv(t, s, id, w);
  }

  lemma {:induction false} AfterKeepsInv(t: Timing, s: System, actions: seq<Action>)
    requires Empty(s)
    ensures Inv(t, After(t, s, actions))
  {
    if actions != [] {
      hide Next, Inv;
      var n := |actions| - 1;
      AfterKeepsInv(t, s, actions[..n]);
      NextKeepsInv(t, After(t, s, actions[..n]), actions[n]);
    }
  }

  /** Whatever a worker is served is what the loader returned for its source, at most two lifetimes of
      an entry and the workers' own delays ago. */
  lemma ServedIsRecent(t: Timing, s: System, actions: seq<Action>, id: int)
    requires Empty(s)
    requires var s' := After(t, s, actions); id in s'.workers && s'.workers[id].pc.Served?
    ensures var s' := After(t, s, actions);
            var w := s'.workers[id];
            && w.pc.load < |s'.loads| && s'.loads[w.pc.load].source == w.source
            && w.pc.config == Get(s'.loads[w.pc.load].flags, w.key)
            && w.since - s'.loads[w.pc.load].at <= ServedAge(t)
            && (t.ttl >= 2 * t.delay ==> ServedAge(t) == 2 * t.ttl + 3 * t.delay)
  {
    hide After;
    AfterKeepsInv(t, s, actions);
    assert Held(t, After(t, s, actions), After(t, s, actions).workers[id]);
  }
}
