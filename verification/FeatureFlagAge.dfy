/** The bound on the age of a served flag is reached: the second cache level really doubles the age. */
module FeatureFlagAge {
  import opened Workflow
  import opened FeatureFlags

  const CONFIG := FlagConfig(true, 100)
  const FLAGS: Flags := map["a" := CONFIG, "b" := CONFIG]
  const NOTHING := System(Cache(map[], map[], map[]), 0, [], map[])

  function Reader(key: string, pc: Pc, since: int): Worker {
    Worker(key, Env, pc, since)
  }

  function Go(id: int): Action {
    Move(id, FLAGS)
  }

  /** Two actions, one after the other. */
  ghost function Then(t: Timing, s: System, a: Action, b: Action): System {
    Next(t, Next(t, s, a), b)
  }

  lemma AfterTwo(t: Timing, s: System, actions: seq<Action>, a: Action, b: Action)
    ensures After(t, s, actions + [a] + [b]) == Then(t, After(t, s, actions), a, b)
  {
    hide Next, After;
    AfterSnoc(t, s, actions, a);
    AfterSnoc(t, s, actions + [a], b);
  }

  /** Everybody has finished, and the only load was made at time 0. */
  ghost predicate Quiet(s: System) {
    s.loads == [Load(Env, FLAGS, 0)] && forall id :: id in s.workers ==> Finished(s.workers[id].pc)
  }

  lemma TickQuiet(t: Timing, s: System, time: nat)
    requires Quiet(s)
    ensures Next(t, s, Tick(time)) == s.(clock := s.clock + time)
  {
  }

  // ---------- the load, stored as late as allowed ----------

  /** The first worker has loaded at time 0 and is about to store. */
  lemma Loads(t: Timing) returns (actions: seq<Action>)
    ensures var s := After(t, NOTHING, actions);
            && s.clock == 0 && s.loads == [Load(Env, FLAGS, 0)] && s.cache.perFlag == map[]
            && s.workers == map[1 := Reader("a", Storing(FLAGS, 0), 0)]
  {
    hide After;
    var join := Join(1, Reader("a", ReadFlag, 0));
    actions := [] + [join] + [Go(1)];
    assert After(t, NOTHING, []) == NOTHING by { AfterNone(t); }
    AfterTwo(t, NOTHING, [], join, Go(1));
    var s1 := After(t, NOTHING, actions);
    assert s1.workers == map[1 := Reader("a", ReadAll, 0)] && s1.cache == NOTHING.cache && s1.clock == 0
      && s1.loads == [];
    AfterTwo(t, NOTHING, actions, Go(1), Go(1));
    actions := actions + [Go(1)] + [Go(1)];
    var s2 := After(t, NOTHING, actions);
    assert s2.workers == map[1 := Reader("a", Loading, 0)] && s2.cache.perFlag == map[] && s2.clock == 0
      && s2.loads == [];
    AfterSnoc(t, NOTHING, actions, Go(1));
    actions := actions + [Go(1)];
  }

  lemma AfterNone(t: Timing)
    ensures After(t, NOTHING, []) == NOTHING
  {
  }

  /** The entry of all flags lives until the lifetime after the delay; flag b has no entry of its own. */
  ghost predicate FirstLevel(t: Timing, s: System) {
    && Quiet(s) && s.clock == t.delay && s.workers.Keys == {1} && ("b", Env) !in s.cache.perFlag
    && Env in s.cache.all && s.cache.all[Env] == Entry(FLAGS, 0, t.delay + t.ttl)
  }

  /** Whether or not the lock is still its own, the worker is served after at most four steps. */
  lemma Unwinds(t: Timing, s: System)
    requires s.workers.Keys == {1} && s.workers[1] == Reader("a", Unlocking(FLAGS, 0), s.clock)
    requires s.cache.perFlag == map[] && s.loads == [Load(Env, FLAGS, 0)]
    ensures var s' := Then(t, Then(t, s, Go(1), Go(1)), Go(1), Go(1));
            && Quiet(s') && s'.clock == s.clock && s'.workers.Keys == {1} && s'.cache.all == s.cache.all
            && ("b", Env) !in s'.cache.perFlag
  {
    var s1 := Next(t, s, Go(1));
    assert s1.workers.Keys == {1} && s1.loads == s.loads && s1.cache.all == s.cache.all && s1.cache.perFlag == map[];
    if s1.workers[1].pc.Deleting? {
      var s2 := Next(t, s1, Go(1));
      assert s2.workers[1] == Reader("a", Choosing(FLAGS, 0), s.clock) && s2.cache.all == s.cache.all
        && s2.cache.perFlag == map[];
      Serves(t, s2);
    } else {
      assert s1.workers[1] == Reader("a", Choosing(FLAGS, 0), s.clock);
      Serves(t, s1);
    }
  }

  lemma Serves(t: Timing, s: System)
    requires s.workers.Keys == {1} && s.workers[1] == Reader("a", Choosing(FLAGS, 0), s.clock)
    requires s.cache.perFlag == map[] && s.loads == [Load(Env, FLAGS, 0)]
    ensures var s' := Then(t, s, Go(1), Go(1));
            && Quiet(s') && s'.clock == s.clock && s'.workers.Keys == {1} && s'.cache.all == s.cache.all
            && ("b", Env) !in s'.cache.perFlag && Next(t, s', Go(1)) == s'
  {
  }

  lemma FillsFirst(t: Timing) returns (actions: seq<Action>)
    ensures FirstLevel(t, After(t, NOTHING, actions))
  {
    hide After, Then;
    actions := Loads(t);
    var s := After(t, NOTHING, actions);
    AfterTwo(t, NOTHING, actions, Tick(t.delay), Go(1));
    StoresLate(t, s);
    actions := actions + [Tick(t.delay)] + [Go(1)];
    var s1 := After(t, NOTHING, actions);
    Unwinds(t, s1);
    AfterTwo(t, NOTHING, actions, Go(1), Go(1));
    actions := actions + [Go(1)] + [Go(1)];
    AfterTwo(t, NOTHING, actions, Go(1), Go(1));
    actions := actions + [Go(1)] + [Go(1)];
  }

  lemma StoresLate(t: Timing, s: System)
    requires s.clock == 0 && s.workers == map[1 := Reader("a", Storing(FLAGS, 0), 0)]
    ensures var s' := Then(t, s, Tick(t.delay), Go(1));
            && s'.clock == t.delay && s'.workers.Keys == {1}
            && s'.workers[1] == Reader("a", Unlocking(FLAGS, 0), t.delay)
            && s'.cache.perFlag == s.cache.perFlag && s'.loads == s.loads
            && Env in s'.cache.all && s'.cache.all[Env] == Entry(FLAGS, 0, t.delay + t.ttl)
  {
    assert MayPass(t, s, t.delay);
  }

  // ---------- the entry of one flag, filled from one about to expire ----------

  ghost predicate SecondLevel(t: Timing, s: System) {
    && Quiet(s) && s.clock == 2 * t.delay + t.ttl - 1 && 3 !in s.workers && ("b", Env) in s.cache.perFlag
    && s.cache.perFlag[("b", Env)] == Entry(CONFIG, 0, 2 * t.delay + 2 * t.ttl - 1)
  }

  /** A worker joins just before the entry of all flags expires, and reads it. */
  lemma ReadsLate(t: Timing, s: System)
    requires FirstLevel(t, s) && t.ttl >= 1
    ensures var s1 := Then(t, s, Tick(t.ttl - 1), Join(2, Reader("b", ReadFlag, 0)));
            var s2 := Then(t, s1, Go(2), Go(2));
            && s2.clock == t.delay + t.ttl - 1 && s2.loads == s.loads && s2.cache == s.cache
            && s2.workers == s.workers[2 := Reader("b", Choosing(FLAGS, 0), t.delay + t.ttl - 1)]
  {
    TickQuiet(t, s, t.ttl - 1);
    var s1 := Then(t, s, Tick(t.ttl - 1), Join(2, Reader("b", ReadFlag, 0)));
    assert s1.workers == s.workers[2 := Reader("b", ReadFlag, t.delay + t.ttl - 1)] && s1.cache == s.cache;
    var s2 := Next(t, s1, Go(2));
    assert s2.workers == s.workers[2 := Reader("b", ReadAll, t.delay + t.ttl - 1)] && s2.cache == s.cache;
  }

  lemma FillsLate(t: Timing, s: System, s2: System)
    requires FirstLevel(t, s) && s2.clock == t.delay + t.ttl - 1 && s2.loads == s.loads && s2.cache == s.cache
    requires s2.workers == s.workers[2 := Reader("b", Choosing(FLAGS, 0), t.delay + t.ttl - 1)]
    ensures var s3 := Then(t, s2, Tick(t.delay), Go(2));
            SecondLevel(t, Next(t, s3, Go(2)))
  {
    assert MayPass(t, s2, t.delay);
    var s3 := Then(t, s2, Tick(t.delay), Go(2));
    assert s3.workers == s.workers[2 := Reader("b", Serving(Some(CONFIG), 0), 2 * t.delay + t.ttl - 1)];
  }

  lemma FillsSecond(t: Timing) returns (actions: seq<Action>)
    requires t.ttl >= 1
    ensures SecondLevel(t, After(t, NOTHING, actions))
  {
    hide After, Then, FirstLevel, SecondLevel, Next;
    actions := FillsFirst(t);
    var s := After(t, NOTHING, actions);
    ReadsLate(t, s);
    var join := Join(2, Reader("b", ReadFlag, 0));
    AfterTwo(t, NOTHING, actions, Tick(t.ttl - 1), join);
    actions := actions + [Tick(t.ttl - 1)] + [join];
    AfterTwo(t, NOTHING, actions, Go(2), Go(2));
    actions := actions + [Go(2)] + [Go(2)];
    FillsLate(t, s, After(t, NOTHING, actions));
    AfterTwo(t, NOTHING, actions, Tick(t.delay), Go(2));
    actions := actions + [Tick(t.delay)] + [Go(2)];
    AfterSnoc(t, NOTHING, actions, Go(2));
    actions := actions + [Go(2)];
  }

  // ---------- the flag, served from that entry about to expire ----------

  lemma ServesLate(t: Timing, s: System)
    requires SecondLevel(t, s) && t.ttl >= 1
    ensures var s1 := Then(t, s, Tick(t.ttl - 1), Join(3, Reader("b", ReadFlag, 0)));
            var s2 := Then(t, s1, Go(3), Tick(t.delay));
            var s3 := Next(t, s2, Go(3));
            && 3 in s3.workers && s3.loads == s.loads
            && s3.workers[3] == Reader("b", Served(Some(CONFIG), 0), 2 * t.ttl + 3 * t.delay - 2)
  {
    TickQuiet(t, s, t.ttl - 1);
    var now := 2 * t.delay + 2 * t.ttl - 2;
    var s1 := Then(t, s, Tick(t.ttl - 1), Join(3, Reader("b", ReadFlag, 0)));
    assert s1.workers == s.workers[3 := Reader("b", ReadFlag, now)] && s1.cache == s.cache && s1.clock == now;
    var s' := Next(t, s1, Go(3));
    assert s'.workers == s.workers[3 := Reader("b", Serving(Some(CONFIG), 0), now)] && s'.clock == now;
    assert MayPass(t, s', t.delay);
  }

  /** For every timing some run serves a configuration two lifetimes and three delays, less two units, after it
      was loaded: with a lifetime of at least two delays that is two units from the bound. */
  lemma BoundReached(t: Timing) returns (actions: seq<Action>)
    requires t.ttl >= 1
    ensures Empty(NOTHING)
    ensures var s := After(t, NOTHING, actions);
            && 3 in s.workers && s.workers[3].pc == Served(Some(CONFIG), 0) && |s.loads| == 1
            && s.workers[3].since - s.loads[0].at == 2 * t.ttl + 3 * t.delay - 2
  {
    hide After, Then, SecondLevel, Next;
    actions := FillsSecond(t);
    var s := After(t, NOTHING, actions);
    ServesLate(t, s);
    assert s.loads == [Load(Env, FLAGS, 0)] by { SecondIsQuiet(t, s); }
    var join := Join(3, Reader("b", ReadFlag, 0));
    AfterTwo(t, NOTHING, actions, Tick(t.ttl - 1), join);
    actions := actions + [Tick(t.ttl - 1)] + [join];
    AfterTwo(t, NOTHING, actions, Go(3), Tick(t.delay));
    actions := actions + [Go(3)] + [Tick(t.delay)];
    AfterSnoc(t, NOTHING, actions, Go(3));
    actions := actions + [Go(3)];
  }

  lemma SecondIsQuiet(t: Timing, s: System)
    requires SecondLevel(t, s)
    ensures Quiet(s)
  {
  }
}
