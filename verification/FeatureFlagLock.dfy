/** What the load lock is worth: exactly when no two workers are ever between taking it and releasing it. */
module FeatureFlagLock {
  import opened Workflow
  import opened FeatureFlags
  import opened FeatureFlagAge

  /** The worker took the lock of its source and has not released it. */
  predicate HoldsLock(w: Worker) {
    w.pc.Loading? || w.pc.Storing? || w.pc.Unlocking? || w.pc.Deleting?
  }

  ghost predicate Exclusive(s: System) {
    forall i, j :: i in s.workers && j in s.workers && i != j && s.workers[i].source == s.workers[j].source ==>
      !HoldsLock(s.workers[i]) || !HoldsLock(s.workers[j])
  }

  ghost predicate AlwaysExclusive(t: Timing) {
    forall s, actions :: Empty(s) ==> Exclusive(After(t, s, actions))
  }

  // ---------- a lock that outlives its holder ----------

  /** Steps the holder has made since it took the lock. */
  function StepsSince(pc: Pc): nat {
    match pc
    case Storing(_, _) => 1
    case Unlocking(_, _) => 2
    case Deleting(_, _) => 3
    case _ => 0
  }

  /** The lock is the holder's own and lasts longer than the holder needs. */
  predicate Owns(t: Timing, s: System, id: int, w: Worker) {
    HoldsLock(w) ==>
      && w.source in s.cache.locks && s.cache.locks[w.source].token == id
      && s.cache.locks[w.source].expires >= w.since + t.lockTimeout - StepsSince(w.pc) * t.delay
  }

  ghost predicate LockInv(t: Timing, s: System) {
    && OnTime(t, s) && forall id :: id in s.workers ==> Owns(t, s, id, s.workers[id])
  }

  lemma HolderKeepsOthersOut(t: Timing, s: System, id: int)
    requires t.lockTimeout > 4 * t.delay && LockInv(t, s) && id in s.workers && HoldsLock(s.workers[id])
    ensures LiveLock(s.cache, s.clock, s.workers[id].source).Some?
  {
    assert Owns(t, s, id, s.workers[id]) && Punctual(t, s.clock, s.workers[id]);
  }

  lemma MoveKeepsLocks(t: Timing, s: System, id: int, flags: Flags)
    requires t.lockTimeout > 4 * t.delay && LockInv(t, s) && id in s.workers && !Finished(s.workers[id].pc)
    ensures LockInv(t, Next(t, s, Move(id, flags)))
  {
    var w := s.workers[id];
    var s' := Next(t, s, Move(id, flags));
    assert Owns(t, s, id, w) && Punctual(t, s.clock, w);
    assert Owns(t, s', id, s'.workers[id]);
    forall j | j in s.workers && j != id
      ensures Owns(t, s', j, s.workers[j]) && Punctual(t, s.clock, s.workers[j])
    {
      assert Owns(t, s, j, s.workers[j]) && Punctual(t, s.clock, s.workers[j]);
      if HoldsLock(s.workers[j]) {
        HolderKeepsOthersOut(t, s, j);
      }
    }
  }

  lemma NextKeepsLocks(t: Timing, s: System, a: Action)
    requires t.lockTimeout > 4 * t.delay && LockInv(t, s)
    ensures LockInv(t, Next(t, s, a))
  {
    match a
    case Move(id, flags) =>
      if id in s.workers && !Finished(s.workers[id].pc) {
        MoveKeepsLocks(t, s, id, flags);
      }
    case Tick(time) => OthersKeepLocks(t, s, a);
    case Evict(d) => OthersKeepLocks(t, s, a);
    case Join(id, w) => OthersKeepLocks(t, s, a);
  }

  lemma OthersKeepLocks(t: Timing, s: System, a: Action)
    requires LockInv(t, s) && !a.Move?
    ensures LockInv(t, Next(t, s, a))
  {
    var s' := Next(t, s, a);
    forall id | id in s'.workers
      ensures Owns(t, s', id, s'.workers[id]) && Punctual(t, s'.clock, s'.workers[id])
    {
      if id in s.workers {
        assert Owns(t, s, id, s.workers[id]) && Punctual(t, s.clock, s.workers[id]);
      }
    }
  }

  lemma {:induction false} RunKeepsLocks(t: Timing, s: System, actions: seq<Action>)
    requires t.lockTimeout > 4 * t.delay && Empty(s)
    ensures LockInv(t, After(t, s, actions))
  {
    if actions != [] {
      hide Next, LockInv;
      var n := |actions| - 1;
      RunKeepsLocks(t, s, actions[..n]);
      NextKeepsLocks(t, After(t, s, actions[..n]), actions[n]);
    } else {
      assert LockInv(t, s);
    }
  }

  lemma OwnersExclude(t: Timing, s: System)
    requires LockInv(t, s)
    ensures Exclusive(s)
  {
    forall i, j | i in s.workers && j in s.workers && i != j && s.workers[i].source == s.workers[j].source
      ensures !HoldsLock(s.workers[i]) || !HoldsLock(s.workers[j])
    {
      assert Owns(t, s, i, s.workers[i]) && Owns(t, s, j, s.workers[j]);
    }
  }

  // ---------- a lock that does not ----------

  const FIRST := Reader("a", ReadFlag, 0)

  /** The first worker alone, its last step just made, with the lock it took at time 0. */
  ghost predicate Alone(t: Timing, s: System, pc: Pc, clock: int) {
    && s.clock == clock && s.workers == map[1 := Reader("a", pc, clock)]
    && s.cache.perFlag == map[] && s.cache.locks == map[Env := Lock(1, t.lockTimeout)]
  }

  /** The first worker has just taken the lock, at time 0. */
  lemma Takes(t: Timing) returns (actions: seq<Action>)
    ensures Alone(t, After(t, NOTHING, actions), Loading, 0)
  {
    hide After;
    assert After(t, NOTHING, []) == NOTHING by { AfterNone(t); }
    AfterTwo(t, NOTHING, [], Join(1, FIRST), Go(1));
    actions := [] + [Join(1, FIRST)] + [Go(1)];
    AfterTwo(t, NOTHING, actions, Go(1), Go(1));
    actions := actions + [Go(1)] + [Go(1)];
  }

  /** It makes its next step a time later. */
  lemma StepsLater(t: Timing, s: System, pc: Pc, time: nat)
    requires Alone(t, s, pc, s.clock) && time <= t.delay
    requires pc.Loading? || pc.Storing? || (pc.Unlocking? && s.clock + time < t.lockTimeout)
    ensures var s' := Then(t, s, Tick(time), Go(1));
            && Alone(t, s', s'.workers[1].pc, s.clock + time)
            && (pc.Loading? ==> s'.workers[1].pc.Storing?) && (pc.Storing? ==> s'.workers[1].pc.Unlocking?)
            && (pc.Unlocking? ==> s'.workers[1].pc.Deleting?)
  {
    assert Next(t, s, Tick(time)) == s.(clock := s.clock + time);
  }

  lemma WaitsAfter(t: Timing, s: System, pc: Pc, time: nat)
    requires Alone(t, s, pc, s.clock) && time <= t.delay
    ensures Next(t, s, Tick(time)) == s.(clock := s.clock + time)
  {
  }

  /** It needs as long as the lock lasts, and is then about to release it. */
  lemma Lasts(t: Timing, taken: seq<Action>) returns (actions: seq<Action>)
    requires 0 < t.lockTimeout <= 4 * t.delay && Alone(t, After(t, NOTHING, taken), Loading, 0)
    ensures var s := After(t, NOTHING, actions);
            && s.clock == t.lockTimeout && s.workers.Keys == {1} && s.workers[1].pc.Deleting?
            && s.workers[1].source == Env && s.cache.perFlag == map[]
            && s.cache.locks == map[Env := Lock(1, t.lockTimeout)]
  {
    hide After, Then, Next;
    var e := if t.lockTimeout < t.delay then t.lockTimeout else t.delay;
    var c := if t.lockTimeout - e < t.delay then t.lockTimeout - e else t.delay;
    var b := if t.lockTimeout - e - c < t.delay then t.lockTimeout - e - c else t.delay;
    var a := t.lockTimeout - e - c - b;
    AfterTwo(t, NOTHING, taken, Tick(a), Go(1));
    StepsLater(t, After(t, NOTHING, taken), Loading, a);
    var a1 := taken + [Tick(a)] + [Go(1)];
    var s1 := After(t, NOTHING, a1);
    AfterTwo(t, NOTHING, a1, Tick(b), Go(1));
    StepsLater(t, s1, s1.workers[1].pc, b);
    var a2 := a1 + [Tick(b)] + [Go(1)];
    var s2 := After(t, NOTHING, a2);
    AfterTwo(t, NOTHING, a2, Tick(c), Go(1));
    StepsLater(t, s2, s2.workers[1].pc, c);
    var a3 := a2 + [Tick(c)] + [Go(1)];
    var s3 := After(t, NOTHING, a3);
    AfterSnoc(t, NOTHING, a3, Tick(e));
    WaitsAfter(t, s3, s3.workers[1].pc, e);
    actions := a3 + [Tick(e)];
  }

  /** When the lock has expired, a second worker takes it beside the first. */
  lemma TakesToo(t: Timing, before: seq<Action>) returns (actions: seq<Action>)
    requires var s := After(t, NOTHING, before);
             && s.workers.Keys == {1} && s.workers[1].source == Env && HoldsLock(s.workers[1])
             && s.cache.perFlag == map[] && LiveLock(s.cache, s.clock, Env).None?
    ensures !Exclusive(After(t, NOTHING, actions))
    ensures var s0, s := After(t, NOTHING, before), After(t, NOTHING, actions);
            1 in s.workers && s.workers[1] == s0.workers[1] && 2 in s.workers && HoldsLock(s.workers[2])
  {
    hide After;
    AfterTwo(t, NOTHING, before, Evict(OfAll(Env)), Join(2, FIRST));
    var a1 := before + [Evict(OfAll(Env))] + [Join(2, FIRST)];
    var s1 := After(t, NOTHING, a1);
    assert s1.workers.Keys == {1, 2} && s1.workers[2].pc == ReadFlag && s1.workers[2].source == Env;
    AfterTwo(t, NOTHING, a1, Go(2), Go(2));
    var a2 := a1 + [Go(2)] + [Go(2)];
    var s2 := After(t, NOTHING, a2);
    assert s2.workers[2].pc == TryLock && s2.workers[1] == s1.workers[1];
    AfterSnoc(t, NOTHING, a2, Go(2));
    actions := a2 + [Go(2)];
    var s := After(t, NOTHING, actions);
    assert HoldsLock(s.workers[1]) && HoldsLock(s.workers[2]) && s.workers[2].source == Env;
  }

  /** The first worker, which has looked at the lock in time, then deletes the one that the second has taken since. */
  lemma DeletesForeignLock(t: Timing) returns (actions: seq<Action>)
    requires 0 < t.lockTimeout <= 4 * t.delay
    ensures var s := After(t, NOTHING, actions);
            2 in s.workers && HoldsLock(s.workers[2]) && Env !in s.cache.locks
  {
    hide After;
    var taken := Takes(t);
    var late := Lasts(t, taken);
    var both := TakesToo(t, late);
    AfterSnoc(t, NOTHING, both, Go(1));
    actions := both + [Go(1)];
  }

  /** One worker at a time loads under the lock of a source, in every run, exactly when the lock lasts longer than the
      four steps a worker makes while it holds it. */
  lemma AlwaysExclusiveIff(t: Timing)
    ensures AlwaysExclusive(t) <==> t.lockTimeout > 4 * t.delay
  {
    hide After, Exclusive, LockInv;
    if t.lockTimeout > 4 * t.delay {
      forall s, actions | Empty(s)
        ensures Exclusive(After(t, s, actions))
      {
        RunKeepsLocks(t, s, actions);
        OwnersExclude(t, After(t, s, actions));
      }
    } else {
      var taken := Takes(t);
      assert Empty(NOTHING);
      var late := taken;
      if t.lockTimeout > 0 {
        late := Lasts(t, taken);
      }
      var actions := TakesToo(t, late);
    }
  }
}
