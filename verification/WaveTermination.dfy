/** When the wave loop stops. The transition cap makes steps fail but does not stop the loop:
    a failed step is still routed along its error list. */
module WaveTermination {
  import opened Digraph
  import opened Workflow
  import opened Routing
  import opened WaveRun
  import opened WaveTheorems
  import Validator

  /** Error lists that name exactly one step: the only edges a run can follow once the cap is reached. */
  function ErrorChain(c: Config): Graph {
    map id | id in Lookup(c.steps) && |Dedup(Lookup(c.steps)[id].ErrorIds())| == 1
      :: {Dedup(Lookup(c.steps)[id].ErrorIds())[0]}
  }

  lemma StepTransitions(c: Config, w: World, r: Run)
    ensures var r' := WaveStep(c, w, r); r'.outcome.None? ==> r.outcome.None? && r'.transitions >= r.transitions + 1
  {
  }

  /** Every unfinished iteration uses at least one transition. */
  lemma {:induction false} TransitionsGrow(c: Config, w: World, r: Run, k: nat)
    ensures var r' := After(c, w, r, k); r'.outcome.None? ==> r'.transitions >= r.transitions + k
  {
    hide WaveStep;
    if k > 0 {
      TransitionsGrow(c, w, r, k - 1);
      StepTransitions(c, w, After(c, w, r, k - 1));
    }
  }

  /** At the cap only a single step with a non-empty error list keeps the loop going. */
  lemma StepAtCap(c: Config, w: World, r: Run)
    requires r.outcome.None? && r.transitions >= c.maxTransitions
    ensures var r' := WaveStep(c, w, r);
            && r'.transitions >= r.transitions
            && (r'.outcome.None? ==>
                  && |r.wave| == 1 && r.wave[0] in Lookup(c.steps)
                  && r'.wave == Dedup(Lookup(c.steps)[r.wave[0]].ErrorIds()))
  {
  }

  /** From the cap on, the run walks along ErrorChain and stops with it. */
  lemma {:induction false} ChainEnds(c: Config, w: World, r: Run, p: seq<string>)
    requires Acyclic(ErrorChain(c)) && r.transitions >= c.maxTransitions
    requires IsWalk(ErrorChain(c), p) && r.wave == [p[|p| - 1]]
    requires forall i :: 0 <= i < |p| ==> p[i] in Lookup(c.steps)
    ensures |p| <= |Lookup(c.steps)|
    ensures After(c, w, r, |Lookup(c.steps)| - |p| + 2).outcome.Some?
    decreases |Lookup(c.steps)| - |p|
  {
    hide WaveStep, ErrorChain, Lookup, Acyclic, Dedup;
    WalkFits(ErrorChain(c), p, Lookup(c.steps).Keys);
    var k := |Lookup(c.steps)| - |p| + 2;
    if r.outcome.Some? {
      EndedStays(c, w, r, k);
      return;
    }
    var r1 := WaveStep(c, w, r);
    assert After(c, w, r, 1) == WaveStep(c, w, After(c, w, r, 0)) == r1;
    if r1.outcome.Some? {
      EndedLater(c, w, r, 1, k);
      return;
    }
    StepAtCap(c, w, r);
    AfterSplit(c, w, r, 1, k - 1);
    if |r1.wave| == 1 && r1.wave[0] in Lookup(c.steps) {
      ExtendChain(c, r.wave[0], r1.wave, p);
      ChainEnds(c, w, r1, p + [r1.wave[0]]);
    } else {
      StepAtCap(c, w, r1);
      assert After(c, w, r1, 1) == WaveStep(c, w, After(c, w, r1, 0));
      EndedLater(c, w, r1, 1, k - 1);
    }
  }

  lemma ExtendChain(c: Config, u: string, wave: seq<string>, p: seq<string>)
    requires IsWalk(ErrorChain(c), p) && p[|p| - 1] == u && u in Lookup(c.steps)
    requires |wave| == 1 && wave == Dedup(Lookup(c.steps)[u].ErrorIds())
    ensures IsWalk(ErrorChain(c), p + [wave[0]])
  {
    hide Lookup, Dedup;
    var q := p + [wave[0]];
    forall i | 0 <= i < |q| - 1
      ensures q[i + 1] in Out(ErrorChain(c), q[i])
    {
      if i < |p| - 1 {
        assert p[i + 1] in Out(ErrorChain(c), p[i]);
      }
    }
  }

  function Bound(c: Config): nat {
    c.maxTransitions + |Lookup(c.steps)| + 2
  }

  /** Without a cycle of one-step error lists every run ends, whatever the world does. */
  lemma HaltsWithinBound(c: Config, w: World, r: Run)
    requires Acyclic(ErrorChain(c))
    ensures After(c, w, r, Bound(c)).outcome.Some?
  {
    hide WaveStep;
    var m := c.maxTransitions;
    var r1 := After(c, w, r, m);
    if r1.outcome.Some? {
      EndedLater(c, w, r, m, Bound(c));
    } else {
      TransitionsGrow(c, w, r, m);
      HaltsFromCap(c, w, r1);
      AfterSplit(c, w, r, m, |Lookup(c.steps)| + 2);
    }
  }

  lemma HaltsFromCap(c: Config, w: World, r: Run)
    requires Acyclic(ErrorChain(c)) && r.transitions >= c.maxTransitions && r.outcome.None?
    ensures After(c, w, r, |Lookup(c.steps)| + 2).outcome.Some?
  {
    hide WaveStep;
    if |r.wave| == 1 && r.wave[0] in Lookup(c.steps) {
      ChainEnds(c, w, r, r.wave);
      EndedLater(c, w, r, |Lookup(c.steps)| + 1, |Lookup(c.steps)| + 2);
    } else {
      StepAtCap(c, w, r);
      assert After(c, w, r, 1) == WaveStep(c, w, After(c, w, r, 0));
      EndedLater(c, w, r, 1, |Lookup(c.steps)| + 2);
    }
  }

  // ---------- the converse ----------

  /** A world in which every step fails and nobody cancels. */
  const ALL_FAIL := World(_ => false, (_, _) => Returns(Failed), (_, _) => [], (_, n) => (n, n))

  /** On a cycle of one-step error lists the all-failing run goes round for ever, past any cap. */
  lemma {:induction false} LoopsForEver(c: Config, p: seq<string>, k: nat)
    requires IsCycle(ErrorChain(c), p)
    ensures var r := After(c, ALL_FAIL, Start([p[0]]), k);
            r.outcome.None? && exists i :: 0 <= i < |p| - 1 && r.wave == [p[i]]
  {
    hide WaveStep;
    if k == 0 {
      assert Start([p[0]]).wave == [p[0]];
    } else {
      LoopsForEver(c, p, k - 1);
      var r := After(c, ALL_FAIL, Start([p[0]]), k - 1);
      var i :| 0 <= i < |p| - 1 && r.wave == [p[i]];
      FailedStepMovesOn(c, r, p[i], p[i + 1]);
      assert i + 1 == |p| - 1 ==> p[i + 1] == p[0];
    }
  }

  lemma FailedStepMovesOn(c: Config, r: Run, u: string, v: string)
    requires r.outcome.None? && r.wave == [u] && v in Out(ErrorChain(c), u)
    ensures var r' := WaveStep(c, ALL_FAIL, r); r'.outcome.None? && r'.wave == [v]
  {
    DedupFacts(Lookup(c.steps)[u].ErrorIds());
  }

  ghost predicate Halts(c: Config, w: World, r: Run) {
    exists k :: After(c, w, r, k).outcome.Some?
  }

  /** The wave loop stops in every world and from every first wave exactly when
      the one-step error lists form no cycle. */
  lemma HaltsIffNoErrorCycle(c: Config)
    ensures (forall w: World, wave :: Halts(c, w, Start(wave))) <==> Acyclic(ErrorChain(c))
  {
    hide WaveStep;
    if Acyclic(ErrorChain(c)) {
      forall w: World, wave
        ensures Halts(c, w, Start(wave))
      {
        HaltsWithinBound(c, w, Start(wave));
      }
    } else {
      var p :| IsCycle(ErrorChain(c), p);
      forall k
        ensures After(c, ALL_FAIL, Start([p[0]]), k).outcome.None?
      {
        LoopsForEver(c, p, k);
      }
      assert !Halts(c, ALL_FAIL, Start([p[0]]));
    }
  }

  /** A list the validator accepts never loops for ever: its cycle check covers the error lists. */
  lemma AcceptedHalts(c: Config, w: World, wave: seq<string>, actionId: Option<int>, registry: set<string>)
    requires Validator.Accepted(c.steps, actionId, registry)
    ensures Acyclic(ErrorChain(c))
    ensures After(c, w, Start(wave), Bound(c)).outcome.Some?
  {
    hide WaveStep;
    ErrorChainInGraph(c, actionId, registry);
    if c.steps == [] || !Validator.AnyUses(c.steps) {
      NoErrorLists(c);
    } else {
      SubgraphAcyclic(GraphOf(c.steps), ErrorChain(c));
    }
    HaltsWithinBound(c, w, Start(wave));
  }

  lemma NoErrorLists(c: Config)
    requires c.steps == [] || !Validator.AnyUses(c.steps)
    ensures Acyclic(ErrorChain(c))
  {
    LookupSound(c.steps);
    forall id | id in Lookup(c.steps)
      ensures Lookup(c.steps)[id].ErrorIds() == []
    {
      var i :| 0 <= i < |c.steps| && c.steps[i] == Lookup(c.steps)[id];
      assert !Validator.UsesBranchesOrRetry(c.steps[i]);
    }
    assert ErrorChain(c) == map[];
    assert IsRank(ErrorChain(c), map[], 0);
    RankExcludesCycles(ErrorChain(c), map[], 0);
  }

  lemma ErrorChainInGraph(c: Config, actionId: Option<int>, registry: set<string>)
    requires Validator.Accepted(c.steps, actionId, registry)
    ensures forall u :: u in ErrorChain(c) ==> ErrorChain(c)[u] <= Out(GraphOf(c.steps), u)
  {
    hide Lookup, Dedup, StepIds, UniqueIds, Validator.GloballyOk;
    LookupSound(c.steps);
    forall u, v | u in ErrorChain(c) && v in ErrorChain(c)[u]
      ensures v in Out(GraphOf(c.steps), u)
    {
      var i :| 0 <= i < |c.steps| && c.steps[i] == Lookup(c.steps)[u];
      DedupFacts(c.steps[i].ErrorIds());
      assert Validator.StepOk(c.steps[i], StepIds(c.steps), registry);
      assert v in c.steps[i].ErrorIds() && v != "";
    }
  }
}
