/** What an invalidation is worth when its deletions are interleaved with readers: exactly when no configuration
    older than it is served to whoever asks later. */
module FeatureFlagInvalidation {
  import opened Workflow
  import opened FeatureFlags

  // ---------- what can bring an old configuration back ----------

  predicate OldAll(s: System, src: Source, n: nat) {
    LiveAll(s.cache, s.clock, src).Some? && LiveAll(s.cache, s.clock, src).value.load < n
  }

  predicate OldFlag(s: System, key: string, src: Source, n: nat) {
    LiveFlag(s.cache, s.clock, key, src).Some? && LiveFlag(s.cache, s.clock, key, src).value.load < n
  }

  /** The worker is going to write flags from a load before the n-th where readers of the flag look: into the entry of
      all flags, or into the flag's own. */
  predicate Rewrites(w: Worker, key: string, n: nat) {
    match w.pc
    case Storing(_, m) => m < n
    case Unlocking(flags, m) => w.key == key && m < n && Get(flags, key).Some?
    case Deleting(flags, m) => w.key == key && m < n && Get(flags, key).Some?
    case Choosing(flags, m) => w.key == key && m < n && Get(flags, key).Some?
    case _ => false
  }

  ghost predicate SomeoneRewrites(t: Timing, s: System, key: string, n: nat) {
    t.ttl >= 1 && exists id :: id in s.workers && Rewrites(s.workers[id], key, n)
  }

  /** A live entry, or a worker about to write one, holds the flag from a load before the n-th. */
  ghost predicate Lingers(t: Timing, s: System, key: string, n: nat) {
    (exists src :: OldAll(s, src, n) || OldFlag(s, key, src, n)) || SomeoneRewrites(t, s, key, n)
  }

  /** A worker that asks for the flag already has its answer from a load before the n-th. */
  predicate InHand(w: Worker, key: string, n: nat) {
    w.key == key &&
    match w.pc
    case Storing(_, m) => m < n
    case Unlocking(_, m) => m < n
    case Deleting(_, m) => m < n
    case Choosing(_, m) => m < n
    case Serving(_, m) => m < n
    case Served(_, m) => m < n
    case _ => false
  }

  ghost predicate AlreadyInHand(s: System, key: string, n: nat, id: int) {
    id in s.workers && InHand(s.workers[id], key, n)
  }

  // ---------- when nothing lingers, nothing old comes back ----------

  /** Nothing lingers, and an old answer is in the hand of those only that had it in s0. */
  ghost predicate Settled(t: Timing, s0: System, s: System, key: string, n: nat) {
    && n <= |s.loads| && !Lingers(t, s, key, n)
    && forall id :: AlreadyInHand(s, key, n, id) ==> AlreadyInHand(s0, key, n, id)
  }

  lemma StepBringsNothing(t: Timing, s: System, id: int, w: Worker, flags: Flags, key: string, n: nat)
    requires n <= |s.loads| && (forall src :: !OldAll(s, src, n) && !OldFlag(s, key, src, n))
    requires t.ttl >= 1 ==> !Rewrites(w, key, n)
    ensures var (pc, cache, load) := FeatureFlags.Step(t, s, id, w, flags);
            var s' := s.(cache := cache);
            && (forall src :: !OldAll(s', src, n) && !OldFlag(s', key, src, n))
            && (t.ttl >= 1 ==> !Rewrites(w.(pc := pc, since := s.clock), key, n))
            && (InHand(w.(pc := pc, since := s.clock), key, n) ==> InHand(w, key, n))
  {
    assert !OldAll(s, w.source, n) && !OldFlag(s, key, w.source, n);
    var s' := s.(cache := FeatureFlags.Step(t, s, id, w, flags).1);
    forall src
      ensures !OldAll(s', src, n) && !OldFlag(s', key, src, n)
    {
      assert !OldAll(s, src, n) && !OldFlag(s, key, src, n);
    }
  }

  lemma MoveKeepsSettled(t: Timing, s0: System, s: System, id: int, flags: Flags, key: string, n: nat)
    requires Settled(t, s0, s, key, n) && id in s.workers && !Finished(s.workers[id].pc)
    ensures Settled(t, s0, Next(t, s, Move(id, flags)), key, n)
  {
    var w := s.workers[id];
    assert AlreadyInHand(s, key, n, id) <==> InHand(w, key, n);
    StepBringsNothing(t, s, id, w, flags, key, n);
    var s' := Next(t, s, Move(id, flags));
    hide FeatureFlags.Step, Rewrites, InHand;
    forall j | AlreadyInHand(s', key, n, j)
      ensures AlreadyInHand(s, key, n, j)
    {
    }
    var c := s.(cache := s'.cache);
    forall src
      ensures !OldAll(s', src, n) && !OldFlag(s', key, src, n)
    {
      assert !OldAll(c, src, n) && !OldFlag(c, key, src, n);
    }
  }

  lemma NextKeepsSettled(t: Timing, s0: System, s: System, a: Action, key: string, n: nat)
    requires Settled(t, s0, s, key, n)
    ensures Settled(t, s0, Next(t, s, a), key, n)
  {
    match a
    case Move(id, flags) =>
      if id in s.workers && !Finished(s.workers[id].pc) {
        MoveKeepsSettled(t, s0, s, id, flags, key, n);
      }
    case Tick(time) => OthersKeepSettled(t, s0, s, a, key, n);
    case Evict(d) => OthersKeepSettled(t, s0, s, a, key, n);
    case Join(id, w) => OthersKeepSettled(t, s0, s, a, key, n);
  }

  lemma OthersKeepSettled(t: Timing, s0: System, s: System, a: Action, key: string, n: nat)
    requires Settled(t, s0, s, key, n) && !a.Move?
    ensures Settled(t, s0, Next(t, s, a), key, n)
  {
    var s' := Next(t, s, a);
    forall src
      ensures !OldAll(s', src, n) && !OldFlag(s', key, src, n)
    {
      assert !OldAll(s, src, n) && !OldFlag(s, key, src, n);
    }
    forall id | AlreadyInHand(s', key, n, id)
      ensures AlreadyInHand(s, key, n, id)
    {
    }
    if a.Join? {
      assert Begins(a.joining) ==> !Rewrites(a.joining.(since := s.clock), key, n);
    }
  }

  lemma {:induction false} AfterKeepsSettled(t: Timing, s: System, actions: seq<Action>, key: string, n: nat)
    requires n <= |s.loads| && !Lingers(t, s, key, n)
    ensures Settled(t, s, After(t, s, actions), key, n)
  {
    if actions != [] {
      hide Next, Settled, Lingers;
      var m := |actions| - 1;
      AfterKeepsSettled(t, s, actions[..m], key, n);
      NextKeepsSettled(t, s, After(t, s, actions[..m]), actions[m], key, n);
    }
  }

  // ---------- when something lingers, it is served to somebody who asks later ----------

  function Go(id: int): Action {
    Move(id, map[])
  }

  ghost predicate ServedOld(s: System, id: int, key: string, n: nat) {
    id in s.workers && s.workers[id].key == key && s.workers[id].pc.Served? && s.workers[id].pc.load < n
  }

  lemma {:induction false} FreshId(ids: set<int>) returns (id: int)
    ensures id !in ids && forall k :: k in ids ==> k < id
  {
    if ids == {} {
      id := 0;
    } else {
      if forall k :: k !in ids {
        assert false;
      }
      var k :| k in ids;
      var m := FreshId(ids - {k});
      id := if k < m then m else k + 1;
      assert forall j :: j in ids ==> j == k || j in ids - {k};
    }
  }

  lemma AfterNothing(t: Timing, s: System)
    ensures After(t, s, []) == s
  {
  }

  lemma AfterTwo(t: Timing, s: System, a: Action, b: Action)
    ensures After(t, s, [a] + [b]) == Next(t, Next(t, s, a), b)
  {
    hide Next, After;
    AfterNothing(t, s);
    AfterSnoc(t, s, [], a);
    assert [] + [a] == [a];
    AfterSnoc(t, s, [a], b);
  }

  /** A worker whose answer is at hand is served in one step. */
  lemma ServedFromFlag(t: Timing, s: System, key: string, src: Source, n: nat) returns (actions: seq<Action>, id: int)
    requires OldFlag(s, key, src, n)
    ensures id !in s.workers && ServedOld(After(t, s, actions), id, key, n)
  {
    id := FreshId(s.workers.Keys);
    var join := Join(id, Worker(key, src, ReadFlag, 0));
    actions := [join] + [Go(id)] + [Go(id)];
    var s1 := Next(t, Next(t, s, join), Go(id));
    assert s1.workers[id].pc.Serving?;
    hide After;
    AfterTwo(t, s, join, Go(id));
    AfterSnoc(t, s, [join] + [Go(id)], Go(id));
  }

  lemma JoinsAfterEvict(t: Timing, s: System, id: int, key: string, src: Source, n: nat)
    requires OldAll(s, src, n) && id !in s.workers
    ensures var s1 := Next(t, Next(t, s, Evict(OfFlag(key, src))), Join(id, Worker(key, src, ReadFlag, 0)));
            && id in s1.workers && s1.workers[id].key == key && s1.workers[id].source == src
            && s1.workers[id].pc.ReadFlag? && OldAll(s1, src, n) && (key, src) !in s1.cache.perFlag
  {
  }

  lemma ChoosesOld(t: Timing, s: System, id: int, key: string, src: Source, n: nat)
    requires id in s.workers && s.workers[id].key == key && s.workers[id].source == src && s.workers[id].pc.ReadFlag?
    requires OldAll(s, src, n) && (key, src) !in s.cache.perFlag
    ensures var s1 := Next(t, Next(t, s, Go(id)), Go(id));
            id in s1.workers && s1.workers[id].key == key && s1.workers[id].pc.Choosing? && s1.workers[id].pc.load < n
  {
  }

  lemma ServesChosen(t: Timing, s: System, id: int, key: string, n: nat)
    requires id in s.workers && s.workers[id].key == key && s.workers[id].pc.Choosing? && s.workers[id].pc.load < n
    ensures ServedOld(Next(t, Next(t, s, Go(id)), Go(id)), id, key, n)
  {
  }

  lemma ServedFromAll(t: Timing, s: System, key: string, src: Source, n: nat) returns (actions: seq<Action>, id: int)
    requires OldAll(s, src, n)
    ensures id !in s.workers && ServedOld(After(t, s, actions), id, key, n)
  {
    id := FreshId(s.workers.Keys);
    var evict, join := Evict(OfFlag(key, src)), Join(id, Worker(key, src, ReadFlag, 0));
    hide After, Next, OldAll;
    var s1 := Next(t, Next(t, s, evict), join);
    JoinsAfterEvict(t, s, id, key, src, n);
    var s2 := Next(t, Next(t, s1, Go(id)), Go(id));
    ChoosesOld(t, s1, id, key, src, n);
    ServesChosen(t, s2, id, key, n);
    actions := [evict] + [join] + ([Go(id)] + [Go(id)]) + ([Go(id)] + [Go(id)]);
    AfterTwo(t, s, evict, join);
    AfterTwo(t, s1, Go(id), Go(id));
    AfterTwo(t, s2, Go(id), Go(id));
    AfterConcat(t, s, [evict] + [join], [Go(id)] + [Go(id)]);
    AfterConcat(t, s, [evict] + [join] + ([Go(id)] + [Go(id)]), [Go(id)] + [Go(id)]);
  }

  /** A worker about to write comes to write; nobody else moves. */
  lemma {:induction false} Writes(t: Timing, s: System, id: int, key: string, n: nat) returns (actions: seq<Action>)
    requires t.ttl >= 1 && id in s.workers && Rewrites(s.workers[id], key, n)
    ensures var s' := After(t, s, actions);
            s'.workers.Keys == s.workers.Keys && exists src :: OldAll(s', src, n) || OldFlag(s', key, src, n)
    decreases match s.workers[id].pc case Unlocking(_, _) => 2 case Deleting(_, _) => 1 case _ => 0
  {
    var w := s.workers[id];
    var s1 := Next(t, s, Go(id));
    AfterNothing(t, s);
    AfterSnoc(t, s, [], Go(id));
    assert [] + [Go(id)] == [Go(id)];
    if w.pc.Storing? {
      actions := [Go(id)];
      assert OldAll(s1, w.source, n);
    } else if w.pc.Choosing? {
      actions := [Go(id)];
      assert OldFlag(s1, key, w.source, n);
    } else {
      hide After;
      var rest := Writes(t, s1, id, key, n);
      AfterConcat(t, s, [Go(id)], rest);
      actions := [Go(id)] + rest;
    }
  }

  lemma ServedFromEntry(t: Timing, s: System, key: string, n: nat) returns (actions: seq<Action>, id: int)
    requires exists src :: OldAll(s, src, n) || OldFlag(s, key, src, n)
    ensures id !in s.workers && ServedOld(After(t, s, actions), id, key, n)
  {
    hide After;
    var src :| OldAll(s, src, n) || OldFlag(s, key, src, n);
    if OldAll(s, src, n) {
      actions, id := ServedFromAll(t, s, key, src, n);
    } else {
      actions, id := ServedFromFlag(t, s, key, src, n);
    }
  }

  lemma LingeringIsServed(t: Timing, s: System, key: string, n: nat) returns (actions: seq<Action>, id: int)
    requires Lingers(t, s, key, n)
    ensures id !in s.workers && ServedOld(After(t, s, actions), id, key, n)
  {
    hide After, OldAll, OldFlag, ServedOld;
    if exists src :: OldAll(s, src, n) || OldFlag(s, key, src, n) {
      actions, id := ServedFromEntry(t, s, key, n);
    } else {
      var k :| k in s.workers && Rewrites(s.workers[k], key, n);
      var writes := Writes(t, s, k, key, n);
      var s1 := After(t, s, writes);
      var rest;
      rest, id := ServedFromEntry(t, s1, key, n);
      actions := writes + rest;
      AfterConcat(t, s, writes, rest);
    }
  }

  /** Whoever is served the flag from a load before the n-th had it in hand already. */
  ghost predicate OnlyInHand(t: Timing, s: System, key: string, n: nat) {
    forall actions, id :: ServedOld(After(t, s, actions), id, key, n) ==> AlreadyInHand(s, key, n, id)
  }

  /** From a state on nobody is served what is older than the n-th load, but those who have it in hand, exactly when
      nothing older lingers. */
  lemma OnlyInHandIff(t: Timing, s: System, key: string, n: nat)
    requires n <= |s.loads|
    ensures OnlyInHand(t, s, key, n) <==> !Lingers(t, s, key, n)
  {
    hide After, Lingers;
    if Lingers(t, s, key, n) {
      var actions, id := LingeringIsServed(t, s, key, n);
      assert !AlreadyInHand(s, key, n, id);
    } else {
      forall actions, id | ServedOld(After(t, s, actions), id, key, n)
        ensures AlreadyInHand(s, key, n, id)
      {
        AfterKeepsSettled(t, s, actions, key, n);
        assert AlreadyInHand(After(t, s, actions), key, n, id);
      }
    }
  }

  // ---------- an invalidation, its deletions interleaved with everybody else ----------

  function DeletionsOf(key: string): seq<Deletion> {
    [OfFlag(key, Env), OfFlag(key, Database), OfAll(Env), OfAll(Database)]
  }

  ghost function AllDeleted(c: Cache, deletions: seq<Deletion>): Cache
    decreases |deletions|
  {
    if deletions == [] then c else AllDeleted(Delete(c, deletions[0]), deletions[1..])
  }

  /** The four deletions, one after another, are an invalidation of the flag. */
  lemma DeletionsForget(c: Cache, key: string)
    requires key != ""
    ensures Forgets(c, AllDeleted(c, DeletionsOf(key)), Some(key))
  {
    var d := DeletionsOf(key);
    var c1 := Delete(c, d[0]);
    var c2 := Delete(c1, d[1]);
    var c3 := Delete(c2, d[2]);
    var after := Delete(c3, d[3]);
    assert AllDeleted(c, d) == after by {
      assert d[1..][0] == d[1] && d[1..][1..] == d[2..] && d[2..][0] == d[2] && d[2..][1..] == d[3..];
      assert d[3..][0] == d[3] && d[3..][1..] == [];
      assert AllDeleted(c3, d[3..]) == AllDeleted(after, []) == after;
      assert AllDeleted(c2, d[2..]) == AllDeleted(c3, d[3..]);
      assert AllDeleted(c1, d[1..]) == AllDeleted(c2, d[2..]);
    }
    TwoSources(c.all);
    BothForgotten(c, after, Some(key));
  }

  /** Worker v is about to invalidate the flag. */
  predicate Begun(s: System, v: int, key: string) {
    v in s.workers && s.workers[v].pc == Invalidating(DeletionsOf(key))
  }

  predicate HasEnded(s: System, v: int) {
    v in s.workers && s.workers[v].pc.Ended?
  }

  predicate Left(pc: Pc, d: Deletion) {
    pc.Invalidating? && d in pc.rest
  }

  predicate Reads(w: Worker, key: string) {
    w.key == key && !Finished(w.pc) && !w.pc.Invalidating?
  }

  ghost predicate NoReader(s: System, key: string) {
    forall id :: id in s.workers ==> !Reads(s.workers[id], key)
  }

  /** When it is not open to readers of the flag, none of them joins. */
  predicate Allowed(open: bool, key: string, actions: seq<Action>) {
    !open ==> forall i :: 0 <= i < |actions| && actions[i].Join? ==> !Reads(actions[i].joining, key)
  }

  /** The live entry of all flags is older than the n-th load and has the flag. */
  predicate OldAllHas(s: System, key: string, src: Source, n: nat) {
    OldAll(s, src, n) && Get(s.cache.all[src].value, key).Some?
  }

  ghost predicate Purging(t: Timing, s: System, v: int, key: string, n: nat, open: bool) {
    && n <= |s.loads| && v in s.workers && (s.workers[v].pc.Invalidating? || s.workers[v].pc.Ended?)
    && (forall src :: OldFlag(s, key, src, n) ==> Left(s.workers[v].pc, OfFlag(key, src)))
    && (forall src :: OldAll(s, src, n) ==> Left(s.workers[v].pc, OfAll(src)))
    && !SomeoneRewrites(t, s, key, n)
    && (if open then t.ttl >= 1 ==> forall src :: !OldAllHas(s, key, src, n) else NoReader(s, key))
  }

  lemma EraserKeepsPurging(t: Timing, s: System, v: int, flags: Flags, key: string, n: nat, open: bool)
    requires Purging(t, s, v, key, n, open)
    ensures Purging(t, Next(t, s, Move(v, flags)), v, key, n, open)
  {
    var s' := Next(t, s, Move(v, flags));
    var pc := s.workers[v].pc;
    if pc.Invalidating? && pc.rest != [] {
      assert forall d :: d in pc.rest ==> d == pc.rest[0] || d in pc.rest[1..];
    }
    forall src
      ensures OldFlag(s', key, src, n) ==> Left(s'.workers[v].pc, OfFlag(key, src))
      ensures OldAll(s', src, n) ==> Left(s'.workers[v].pc, OfAll(src))
      ensures OldAllHas(s', key, src, n) ==> OldAllHas(s, key, src, n)
    {
    }
  }

  lemma MoverKeepsPurging(t: Timing, s: System, v: int, id: int, flags: Flags, key: string, n: nat, open: bool)
    requires Purging(t, s, v, key, n, open) && id in s.workers && id != v && !Finished(s.workers[id].pc)
    ensures Purging(t, Next(t, s, Move(id, flags)), v, key, n, open)
  {
    var w := s.workers[id];
    var s' := Next(t, s, Move(id, flags));
    assert t.ttl >= 1 ==> !Rewrites(w, key, n);
    assert !open ==> !Reads(w, key);
    assert open && t.ttl >= 1 ==> !OldAllHas(s, key, w.source, n);
    assert t.ttl >= 1 ==> !Rewrites(s'.workers[id], key, n);
    forall src
      ensures OldFlag(s', key, src, n) ==> OldFlag(s, key, src, n)
      ensures OldAll(s', src, n) ==> OldAll(s, src, n)
      ensures OldAllHas(s', key, src, n) ==> OldAllHas(s, key, src, n)
    {
    }
  }

  lemma NextKeepsPurging(t: Timing, s: System, v: int, a: Action, key: string, n: nat, open: bool)
    requires Purging(t, s, v, key, n, open) && (a.Join? && !open ==> !Reads(a.joining, key))
    ensures Purging(t, Next(t, s, a), v, key, n, open)
  {
    if a.Move? {
      if a.worker in s.workers && !Finished(s.workers[a.worker].pc) {
        if a.worker == v {
          EraserKeepsPurging(t, s, v, a.flags, key, n, open);
        } else {
          MoverKeepsPurging(t, s, v, a.worker, a.flags, key, n, open);
        }
      }
    } else {
      var s' := Next(t, s, a);
      forall src
        ensures OldFlag(s', key, src, n) ==> OldFlag(s, key, src, n)
        ensures OldAll(s', src, n) ==> OldAll(s, src, n)
        ensures OldAllHas(s', key, src, n) ==> OldAllHas(s, key, src, n)
      {
      }
      assert a.Join? && Begins(a.joining) ==> !Rewrites(a.joining.(since := s.clock), key, n);
    }
  }

  lemma {:induction false} AfterKeepsPurging(t: Timing, s: System, v: int, actions: seq<Action>, key: string, n: nat,
                                             open: bool)
    requires Purging(t, s, v, key, n, open) && Allowed(open, key, actions)
    ensures Purging(t, After(t, s, actions), v, key, n, open)
  {
    if actions != [] {
      hide Next, Purging, Reads;
      var m := |actions| - 1;
      AfterKeepsPurging(t, s, v, actions[..m], key, n, open);
      NextKeepsPurging(t, After(t, s, actions[..m]), v, actions[m], key, n, open);
    }
  }

  lemma BegunIsPurging(t: Timing, s: System, v: int, key: string, open: bool)
    requires Begun(s, v, key) && !SomeoneRewrites(t, s, key, |s.loads|)
    requires if open then t.ttl >= 1 ==> forall src :: !OldAllHas(s, key, src, |s.loads|) else NoReader(s, key)
    ensures Purging(t, s, v, key, |s.loads|, open)
  {
    forall src
      ensures Left(s.workers[v].pc, OfFlag(key, src)) && Left(s.workers[v].pc, OfAll(src))
    {
      var rest := DeletionsOf(key);
      assert rest[0] == OfFlag(key, Env) && rest[1] == OfFlag(key, Database);
      assert rest[2] == OfAll(Env) && rest[3] == OfAll(Database);
      assert src == Env || src == Database;
    }
  }

  lemma PurgedIsClean(t: Timing, s: System, v: int, key: string, n: nat, open: bool)
    requires Purging(t, s, v, key, n, open) && HasEnded(s, v)
    ensures !Lingers(t, s, key, n)
  {
    hide OldAll, OldFlag;
  }

  /** However an invalidation is interleaved, nothing older than it lingers when it has ended. */
  ghost predicate Renews(t: Timing, s: System, v: int, key: string, open: bool) {
    forall actions :: Allowed(open, key, actions) && HasEnded(After(t, s, actions), v) ==>
      !Lingers(t, After(t, s, actions), key, |s.loads|)
  }

  lemma CleanStartRenews(t: Timing, s: System, v: int, key: string, open: bool)
    requires Begun(s, v, key) && !SomeoneRewrites(t, s, key, |s.loads|)
    requires if open then t.ttl >= 1 ==> forall src :: !OldAllHas(s, key, src, |s.loads|) else NoReader(s, key)
    ensures Renews(t, s, v, key, open)
  {
    hide After, Allowed, Lingers, SomeoneRewrites, HasEnded, OldAllHas, NoReader;
    BegunIsPurging(t, s, v, key, open);
    hide Purging;
    forall actions | Allowed(open, key, actions) && HasEnded(After(t, s, actions), v)
      ensures !Lingers(t, After(t, s, actions), key, |s.loads|)
    {
      AfterKeepsPurging(t, s, v, actions, key, |s.loads|, open);
      PurgedIsClean(t, After(t, s, actions), v, key, |s.loads|, open);
    }
  }

  /** The invalidation makes its steps; nobody else moves. */
  lemma {:induction false} Erases(t: Timing, s: System, v: int) returns (actions: seq<Action>)
    requires v in s.workers && s.workers[v].pc.Invalidating?
    ensures var s' := After(t, s, actions);
            && HasEnded(s', v) && s'.workers.Keys == s.workers.Keys && s'.loads == s.loads
            && forall id :: id in s.workers && id != v ==> s'.workers[id] == s.workers[id]
    ensures forall i :: 0 <= i < |actions| ==> !actions[i].Join?
    decreases |s.workers[v].pc.rest|
  {
    var s1 := Next(t, s, Go(v));
    AfterNothing(t, s);
    AfterSnoc(t, s, [], Go(v));
    assert [] + [Go(v)] == [Go(v)];
    actions := [Go(v)];
    if s.workers[v].pc.rest != [] {
      hide After;
      var rest := Erases(t, s1, v);
      AfterConcat(t, s, [Go(v)], rest);
      actions := [Go(v)] + rest;
    }
  }

  /** Who is about to write an old entry still is when the invalidation has ended. */
  lemma WriterOutlasts(t: Timing, s: System, v: int, key: string, open: bool)
    requires Begun(s, v, key) && SomeoneRewrites(t, s, key, |s.loads|)
    ensures !Renews(t, s, v, key, open)
  {
    hide After, OldAll, OldFlag;
    var id :| id in s.workers && Rewrites(s.workers[id], key, |s.loads|);
    var actions := Erases(t, s, v);
    assert Allowed(open, key, actions);
    assert Rewrites(After(t, s, actions).workers[id], key, |s.loads|);
    assert Lingers(t, After(t, s, actions), key, |s.loads|);
  }

  lemma ErasesFlag(t: Timing, s: System, v: int, key: string)
    requires Begun(s, v, key)
    ensures var s1 := Next(t, Next(t, s, Go(v)), Go(v));
            && s1.cache == Delete(Delete(s.cache, OfFlag(key, Env)), OfFlag(key, Database))
            && s1.clock == s.clock && s1.loads == s.loads && s1.workers.Keys == s.workers.Keys
            && s1.workers[v].pc == Invalidating([OfAll(Env), OfAll(Database)])
  {
    assert DeletionsOf(key)[1..][1..] == [OfAll(Env), OfAll(Database)];
  }

  /** A reader joins after the flag's own entries are gone and takes up the entry of all flags. */
  lemma TakesUp(t: Timing, s: System, id: int, key: string, src: Source, n: nat)
    requires id !in s.workers && (key, src) !in s.cache.perFlag && OldAllHas(s, key, src, n)
    ensures var s3 := Next(t, Next(t, Next(t, s, Join(id, Worker(key, src, ReadFlag, 0))), Go(id)), Go(id));
            && id in s3.workers && Rewrites(s3.workers[id], key, n) && s3.loads == s.loads
            && forall k :: k in s.workers ==> k in s3.workers && s3.workers[k] == s.workers[k]
  {
    var s2 := Next(t, Next(t, s, Join(id, Worker(key, src, ReadFlag, 0))), Go(id));
    assert s2.workers == s.workers[id := Worker(key, src, ReadAll, s.clock)] && s2.cache == s.cache;
  }

  /** The stale run: when the invalidation has ended, that reader is about to write the flag's entry again. */
  lemma ReaderSlipsIn(t: Timing, s: System, v: int, key: string, src: Source)
    requires t.ttl >= 1 && Begun(s, v, key) && OldAllHas(s, key, src, |s.loads|)
    ensures !Renews(t, s, v, key, true)
  {
    var id := FreshId(s.workers.Keys);
    var join := Join(id, Worker(key, src, ReadFlag, 0));
    var s1 := Next(t, Next(t, s, Go(v)), Go(v));
    ErasesFlag(t, s, v, key);
    assert (key, src) !in s1.cache.perFlag && OldAllHas(s1, key, src, |s.loads|) by {
      assert src == Env || src == Database;
    }
    TakesUp(t, s1, id, key, src, |s.loads|);
    hide After, Next, OldAll, OldFlag, Rewrites, OldAllHas;
    var before := [Go(v)] + [Go(v)] + ([join] + [Go(id)]) + [Go(id)];
    AfterTwo(t, s, Go(v), Go(v));
    AfterTwo(t, s1, join, Go(id));
    AfterConcat(t, s, [Go(v)] + [Go(v)], [join] + [Go(id)]);
    AfterSnoc(t, s, [Go(v)] + [Go(v)] + ([join] + [Go(id)]), Go(id));
    var s3 := After(t, s, before);
    var rest := Erases(t, s3, v);
    AfterConcat(t, s, before, rest);
    EndsLingering(t, s, v, key, before + rest, id);
  }

  lemma EndsLingering(t: Timing, s: System, v: int, key: string, actions: seq<Action>, id: int)
    requires var s' := After(t, s, actions);
             t.ttl >= 1 && HasEnded(s', v) && id in s'.workers && Rewrites(s'.workers[id], key, |s.loads|)
    ensures !Renews(t, s, v, key, true)
  {
    hide After, OldAll, OldFlag, Rewrites;
    assert Allowed(true, key, actions);
    assert Lingers(t, After(t, s, actions), key, |s.loads|);
  }

  /** Open to everybody, an invalidation is sure to renew the flag exactly when no worker is about to write an old
      entry and no live entry of all flags has the flag. */
  lemma OpenInvalidationRenewsIff(t: Timing, s: System, v: int, key: string)
    requires Begun(s, v, key)
    ensures Renews(t, s, v, key, true) <==>
      !SomeoneRewrites(t, s, key, |s.loads|) && (t.ttl >= 1 ==> forall src :: !OldAllHas(s, key, src, |s.loads|))
  {
    hide Renews, OldAllHas, SomeoneRewrites;
    if SomeoneRewrites(t, s, key, |s.loads|) {
      WriterOutlasts(t, s, v, key, true);
    } else if t.ttl >= 1 && exists src :: OldAllHas(s, key, src, |s.loads|) {
      var src :| OldAllHas(s, key, src, |s.loads|);
      ReaderSlipsIn(t, s, v, key, src);
    } else {
      CleanStartRenews(t, s, v, key, true);
    }
  }

  /** When no reader of the flag is under way and none joins before it has ended, it is sure to exactly when no
      worker is about to store an old entry. */
  lemma UnreadInvalidationRenewsIff(t: Timing, s: System, v: int, key: string)
    requires Begun(s, v, key) && NoReader(s, key)
    ensures Renews(t, s, v, key, false) <==> !SomeoneRewrites(t, s, key, |s.loads|)
  {
    hide Renews, OldAllHas, SomeoneRewrites, NoReader;
    if SomeoneRewrites(t, s, key, |s.loads|) {
      WriterOutlasts(t, s, v, key, false);
    } else {
      CleanStartRenews(t, s, v, key, false);
    }
  }
}
