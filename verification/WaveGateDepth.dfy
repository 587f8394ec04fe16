/** When a gate can run beside another step: two steps of one wave lie equally far below two steps of the first
    wave, or below two targets of one branch list. */
module WaveGateDepth {
  import opened Workflow
  import opened Routing
  import opened WaveRun
  import opened WaveTheorems
  import opened WaveGraph
  import opened WaveGates
  import GateCheck

  // ---------- siblings ----------

  /** A walk of d edges from a down to v, along branch lists. */
  ghost predicate Descent(c: Config, p: seq<string>, a: string, d: nat, v: string) {
    |p| == d + 1 && p[0] == a && p[d] == v && forall i :: 0 <= i < d ==> Follows(c, p[i], p[i + 1])
  }

  ghost predicate Under(c: Config, a: string, d: nat, v: string) {
    exists p :: Descent(c, p, a, d, v)
  }

  /** ids is a branch list of step u. */
  predicate ListOf(c: Config, u: string, ids: seq<string>) {
    u in Lookup(c.steps) && (ids == Lookup(c.steps)[u].SuccessIds() || ids == Lookup(c.steps)[u].ErrorIds())
  }

  /** Step u lies some edges below a step of the first wave. */
  ghost predicate Reachable(c: Config, first: seq<string>, u: string) {
    exists e, m: nat :: e in first && Under(c, e, m, u)
  }

  /** A list that holds both, of a step a run from this first wave can come to. */
  ghost predicate ShareList(c: Config, first: seq<string>, a: string, b: string) {
    exists u, ids :: Reachable(c, first, u) && ListOf(c, u, ids) && a in ids && b in ids
  }

  /** v and v' lie equally far below two different steps that can start side by side: two steps of the first wave
      or two targets of one list. */
  ghost predicate Parts(c: Config, first: seq<string>, a: string, b: string, d: nat, v: string, v': string) {
    && a != b && ((a in first && b in first) || ShareList(c, first, a, b))
    && Under(c, a, d, v) && Under(c, b, d, v')
  }

  ghost predicate Siblings(c: Config, first: seq<string>, v: string, v': string) {
    exists a, b, d: nat :: Parts(c, first, a, b, d, v, v')
  }

  lemma UnderNext(c: Config, a: string, d: nat, u: string, v: string)
    requires Under(c, a, d, u) && Follows(c, u, v)
    ensures Under(c, a, d + 1, v)
  {
    hide Follows;
    var p :| Descent(c, p, a, d, u);
    assert Descent(c, p + [v], a, d + 1, v);
  }

  lemma UnderItself(c: Config, a: string)
    ensures Under(c, a, 0, a)
  {
    assert Descent(c, [a], a, 0, a);
  }

  lemma ReachableNext(c: Config, first: seq<string>, u: string, v: string)
    requires Reachable(c, first, u) && Follows(c, u, v)
    ensures Reachable(c, first, v)
  {
    hide Follows, Under;
    var e, m: nat :| e in first && Under(c, e, m, u);
    UnderNext(c, e, m, u, v);
  }

  lemma SiblingsNext(c: Config, first: seq<string>, u: string, u': string, v: string, v': string)
    requires Siblings(c, first, u, u') && Follows(c, u, v) && Follows(c, u', v')
    ensures Siblings(c, first, v, v')
  {
    hide Under, Follows, ShareList;
    var a, b, d: nat :| Parts(c, first, a, b, d, u, u');
    UnderNext(c, a, d, u, v);
    UnderNext(c, b, d, u', v');
    assert Parts(c, first, a, b, d + 1, v, v');
  }

  lemma TargetsAreSiblings(c: Config, first: seq<string>, u: string, ids: seq<string>, v: string, v': string)
    requires Reachable(c, first, u) && ListOf(c, u, ids) && v in ids && v' in ids && v != v'
    ensures Siblings(c, first, v, v')
  {
    hide Under, ListOf, Reachable;
    UnderItself(c, v);
    UnderItself(c, v');
    assert ShareList(c, first, v, v');
    assert Parts(c, first, v, v', 0, v, v');
  }

  lemma FirstAreSiblings(c: Config, first: seq<string>, v: string, v': string)
    requires v in first && v' in first && v != v'
    ensures Siblings(c, first, v, v')
  {
    hide Under, ShareList;
    UnderItself(c, v);
    UnderItself(c, v');
    assert Parts(c, first, v, v', 0, v, v');
  }

  // ---------- a wave holds siblings only ----------

  ghost predicate AllSiblings(c: Config, first: seq<string>, wave: seq<string>) {
    && (forall v :: v in wave ==> Reachable(c, first, v))
    && (forall v, v' :: v in wave && v' in wave && v != v' ==> Siblings(c, first, v, v'))
  }

  /** The next steps of a finished branch are one of its step's lists, or none. */
  lemma {:induction false} FinishLists(c: Config, w: World, wave: seq<string>, base: nat, order: seq<nat>)
    requires Explicit(c) && AllKnown(wave, Lookup(c.steps))
    requires forall i :: 0 <= i < |order| ==> order[i] < |wave|
    ensures var results := Finish(c, w, wave, base, order).1;
            forall id :: id in results.at ==>
              id in wave && (results.at[id].next == [] || ListOf(c, id, results.at[id].next))
  {
    hide Lookup, Explicit, NextStepIds, Allocated;
    if order != [] {
      FinishLists(c, w, wave, base, order[..|order| - 1]);
      var id := wave[order[|order| - 1]];
      var a := w.attempt(Allocated(wave, base, id), id);
      NextStepFollows(c, id, ParallelStatus(a));
    }
  }

  lemma ListFollows(c: Config, u: string, ids: seq<string>, v: string)
    requires ListOf(c, u, ids) && v in ids
    ensures Follows(c, u, v)
  {
  }

  lemma SingleSiblings(c: Config, w: World, first: seq<string>, r: Run)
    requires Explicit(c) && |r.wave| == 1 && r.outcome.None? && AllSiblings(c, first, r.wave)
    ensures AllSiblings(c, first, Single(c, w, r).wave)
  {
    hide Lookup, Dedup, Explicit, NextStepIds, Siblings, Reachable, Execute, Follows;
    var r' := Single(c, w, r);
    if r'.outcome.None? {
      SingleFollows(c, w, r);
      var u := r.wave[0];
      var step := Lookup(c.steps)[u];
      DedupFacts(step.SuccessIds());
      DedupFacts(step.ErrorIds());
      var ids := if r'.wave == Dedup(step.SuccessIds()) then step.SuccessIds() else step.ErrorIds();
      forall v | v in r'.wave
        ensures Reachable(c, first, v)
      {
        ListFollows(c, u, ids, v);
        ReachableNext(c, first, u, v);
      }
      forall v, v' | v in r'.wave && v' in r'.wave && v != v'
        ensures Siblings(c, first, v, v')
      {
        TargetsAreSiblings(c, first, u, ids, v, v');
      }
    } else {
      SingleEnds(c, w, r);
    }
  }

  lemma SingleEnds(c: Config, w: World, r: Run)
    requires |r.wave| == 1 && r.outcome.None? && Single(c, w, r).outcome.Some?
    ensures Single(c, w, r).wave == [] || Single(c, w, r).wave == r.wave
  {
    hide Lookup, Dedup, NextStepIds;
  }

  lemma FanOutEnds(c: Config, w: World, r: Run)
    requires r.outcome.None? && FanOut(c, w, r).outcome.Some?
    ensures FanOut(c, w, r).wave == [] || FanOut(c, w, r).wave == r.wave
  {
    hide Lookup, Dedup, JoinPolicy, Finish, HasStatus, FinishOrder, Collected;
  }

  lemma BranchesAreSiblings(c: Config, first: seq<string>, wave: seq<string>, u: string, ids: seq<string>,
                            u': string, ids': seq<string>, v: string, v': string)
    requires AllSiblings(c, first, wave) && u in wave && u' in wave
    requires ListOf(c, u, ids) && v in ids && ListOf(c, u', ids') && v' in ids' && v != v'
    requires u == u' ==> ids == ids'
    ensures Siblings(c, first, v, v')
  {
    hide Siblings, Reachable, ListOf, Follows;
    if u == u' {
      TargetsAreSiblings(c, first, u, ids, v, v');
    } else {
      ListFollows(c, u, ids, v);
      ListFollows(c, u', ids', v');
      SiblingsNext(c, first, u, u', v, v');
    }
  }

  lemma FanOutSiblings(c: Config, w: World, first: seq<string>, r: Run)
    requires Explicit(c) && r.outcome.None? && AllSiblings(c, first, r.wave)
    ensures AllSiblings(c, first, FanOut(c, w, r).wave)
  {
    hide Lookup, Dedup, Explicit, JoinPolicy, Finish, HasStatus, FinishOrder, Siblings, Reachable, ListOf, Follows,
         Collected;
    var r' := FanOut(c, w, r);
    if r'.outcome.Some? {
      FanOutEnds(c, w, r);
    } else {
      FinishLists(c, w, r.wave, r.orders, FinishOrder(w, r.ticks, |r.wave|)[..InTime(w, r.ticks, |r.wave|)]);
      CollectedFacts(c, w, r.wave, r.orders, r.ticks);
      var results := Collected(c, w, r.wave, r.orders, r.ticks);
      var steps := SubSteps(r.wave, Lookup(c.steps));
      DedupFacts(JoinPolicy(steps, results, Lookup(c.steps)));
      forall v | v in r'.wave
        ensures Reachable(c, first, v)
      {
        JoinPolicyMember(steps, results, Lookup(c.steps), v);
        var u :| u in results.at && v in results.at[u].next;
        ListFollows(c, u, results.at[u].next, v);
        ReachableNext(c, first, u, v);
      }
      forall v, v' | v in r'.wave && v' in r'.wave && v != v'
        ensures Siblings(c, first, v, v')
      {
        JoinPolicyMember(steps, results, Lookup(c.steps), v);
        JoinPolicyMember(steps, results, Lookup(c.steps), v');
        var u :| u in results.at && v in results.at[u].next;
        var u' :| u' in results.at && v' in results.at[u'].next;
        BranchesAreSiblings(c, first, r.wave, u, results.at[u].next, u', results.at[u'].next, v, v');
      }
    }
  }

  lemma StepSiblings(c: Config, w: World, first: seq<string>, r: Run)
    requires Explicit(c) && AllSiblings(c, first, r.wave)
    ensures AllSiblings(c, first, WaveStep(c, w, r).wave)
  {
    hide Single, FanOut, AllSiblings;
    if r.outcome.None? && r.wave != [] && !w.cancelled(r.ticks) {
      if |r.wave| == 1 {
        SingleSiblings(c, w, first, r);
      } else {
        FanOutSiblings(c, w, first, r);
      }
    }
  }

  lemma FirstSiblings(c: Config, first: seq<string>)
    ensures AllSiblings(c, first, first)
  {
    hide Siblings, Under;
    forall v | v in first
      ensures Reachable(c, first, v)
    {
      UnderItself(c, v);
    }
    forall v, v' | v in first && v' in first && v != v'
      ensures Siblings(c, first, v, v')
    {
      FirstAreSiblings(c, first, v, v');
    }
  }

  lemma {:induction false} WavesAreSiblings(c: Config, w: World, first: seq<string>, k: nat)
    requires Explicit(c) && NoDup(first)
    ensures var wave := After(c, w, Start(first), k).wave;
            AllSiblings(c, first, wave) && NoDup(wave)
  {
    hide WaveStep, Explicit, AllSiblings;
    if k == 0 {
      FirstSiblings(c, first);
    } else {
      WavesAreSiblings(c, w, first, k - 1);
      StepSiblings(c, w, first, After(c, w, Start(first), k - 1));
      StepOrders(c, w, After(c, w, Start(first), k - 1));
    }
  }

  /** Some gate and some step lie equally far below two different steps that start side by side. */
  ghost predicate GateBesideStep(c: Config, first: seq<string>) {
    exists g, v :: GateCheck.IsGateId(Lookup(c.steps), g) && Siblings(c, first, g, v)
  }

  ghost predicate Alone(c: Config, wave: seq<string>) {
    |wave| >= 2 ==> HasNoGate(c, wave)
  }

  /** Gates run alone in every run from this first wave, whatever the world does. */
  ghost predicate GatesAlone(c: Config, first: seq<string>) {
    forall w: World, k: nat :: Alone(c, After(c, w, Start(first), k).wave)
  }

  /** Join points or not: when no gate lies so, gates run alone. */
  lemma NoGateBesideAlone(c: Config, w: World, first: seq<string>, k: nat)
    requires Explicit(c) && NoDup(first) && !GateBesideStep(c, first)
    ensures Alone(c, After(c, w, Start(first), k).wave)
  {
    hide After, Explicit, Siblings, Reachable, GateCheck.IsGateId, Lookup;
    var wave := After(c, w, Start(first), k).wave;
    WavesAreSiblings(c, w, first, k);
    if |wave| >= 2 {
      forall g | g in wave
        ensures !GateCheck.IsGateId(Lookup(c.steps), g)
      {
        var v := if wave[0] == g then wave[1] else wave[0];
        assert Siblings(c, first, g, v);
      }
    }
  }
}
