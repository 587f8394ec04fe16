/** Where a run can go on to, and how long runs of accepted workflows are. */
module WaveGraph {
  import opened Digraph
  import opened Workflow
  import opened Routing
  import opened WaveRun
  import opened WaveTheorems
  import Validator
  import GateCheck

  /** No step falls back to the order of the list: every success key is present. */
  ghost predicate Explicit(c: Config) {
    forall i :: 0 <= i < |c.steps| ==> c.steps[i].onSuccess != Missing
  }

  /** v is named by the success list or by the error list of u. */
  ghost predicate Follows(c: Config, u: string, v: string) {
    u in Lookup(c.steps) && v in GateCheck.Next(Lookup(c.steps), u)
  }

  /** The runtime can go on from u to v: by the list of its outcome, or by order when u has no success list. */
  ghost predicate GoesTo(c: Config, u: string, v: string) {
    u in Lookup(c.steps)
    && (v in NextStepIds(Lookup(c.steps)[u], Completed, c.steps) || v in Lookup(c.steps)[u].ErrorIds())
  }

  lemma NextStepFollows(c: Config, u: string, outcome: Status)
    requires Explicit(c) && u in Lookup(c.steps)
    ensures var step := Lookup(c.steps)[u];
            NextStepIds(step, outcome, c.steps) == step.SuccessIds()
              || NextStepIds(step, outcome, c.steps) == step.ErrorIds()
    ensures forall v :: v in NextStepIds(Lookup(c.steps)[u], outcome, c.steps) ==> Follows(c, u, v)
  {
    LookupSound(c.steps);
  }

  lemma NextStepGoes(c: Config, u: string, outcome: Status)
    requires u in Lookup(c.steps)
    ensures forall v :: v in NextStepIds(Lookup(c.steps)[u], outcome, c.steps) ==> GoesTo(c, u, v)
  {
    hide LinearNextStepIds;
  }

  /** With explicit lists the runtime follows the lists and nothing else. */
  lemma ExplicitGoes(c: Config, u: string, v: string)
    requires Explicit(c)
    ensures GoesTo(c, u, v) <==> Follows(c, u, v)
  {
    LookupSound(c.steps);
  }

  /** Every result of a parallel wave belongs to one of its steps and names only steps it goes on to. */
  lemma {:induction false} FinishGoes(c: Config, w: World, wave: seq<string>, base: nat, order: seq<nat>)
    requires AllKnown(wave, Lookup(c.steps))
    requires forall i :: 0 <= i < |order| ==> order[i] < |wave|
    ensures var results := Finish(c, w, wave, base, order).1;
            forall id :: id in results.at ==> id in wave && forall v :: v in results.at[id].next ==> GoesTo(c, id, v)
  {
    hide Lookup, GoesTo, NextStepIds, Allocated;
    if order != [] {
      FinishGoes(c, w, wave, base, order[..|order| - 1]);
      var id := wave[order[|order| - 1]];
      var a := w.attempt(Allocated(wave, base, id), id);
      NextStepGoes(c, id, ParallelStatus(a));
    }
  }

  lemma SingleGoes(c: Config, w: World, r: Run)
    requires |r.wave| == 1 && Single(c, w, r).outcome.None?
    ensures r.wave[0] in Lookup(c.steps)
    ensures forall v :: v in Single(c, w, r).wave ==> GoesTo(c, r.wave[0], v)
  {
    hide Lookup, Dedup, GoesTo, NextStepIds;
    var u := r.wave[0];
    var (r1, status) := Execute(c, w, r, Lookup(c.steps)[u]);
    NextStepGoes(c, u, status.value);
    DedupFacts(NextStepIds(Lookup(c.steps)[u], status.value, c.steps));
  }

  lemma SingleFollows(c: Config, w: World, r: Run)
    requires Explicit(c) && |r.wave| == 1 && Single(c, w, r).outcome.None?
    ensures r.wave[0] in Lookup(c.steps)
    ensures var step := Lookup(c.steps)[r.wave[0]];
            Single(c, w, r).wave == Dedup(step.SuccessIds()) || Single(c, w, r).wave == Dedup(step.ErrorIds())
  {
    hide Lookup, Dedup, Explicit, Follows;
    var u := r.wave[0];
    var (r1, status) := Execute(c, w, r, Lookup(c.steps)[u]);
    NextStepFollows(c, u, status.value);
  }

  lemma FanOutGoes(c: Config, w: World, r: Run)
    requires FanOut(c, w, r).outcome.None?
    ensures AllKnown(r.wave, Lookup(c.steps))
    ensures forall v :: v in FanOut(c, w, r).wave ==> exists u :: u in r.wave && GoesTo(c, u, v)
  {
    hide Lookup, Dedup, GoesTo, JoinPolicy, HasStatus, Finish, Collected;
    FinishGoes(c, w, r.wave, r.orders, FinishOrder(w, r.ticks, |r.wave|)[..InTime(w, r.ticks, |r.wave|)]);
    CollectedFacts(c, w, r.wave, r.orders, r.ticks);
    var results := Collected(c, w, r.wave, r.orders, r.ticks);
    var steps := SubSteps(r.wave, Lookup(c.steps));
    DedupFacts(JoinPolicy(steps, results, Lookup(c.steps)));
    forall v | v in FanOut(c, w, r).wave
      ensures exists u :: u in r.wave && GoesTo(c, u, v)
    {
      JoinPolicyMember(steps, results, Lookup(c.steps), v);
    }
  }

  /** The next wave holds steps that this one goes on to. */
  lemma WaveGoes(c: Config, w: World, r: Run)
    requires r.outcome.None? && WaveStep(c, w, r).outcome.None?
    ensures AllKnown(r.wave, Lookup(c.steps))
    ensures forall v :: v in WaveStep(c, w, r).wave ==> exists u :: u in r.wave && GoesTo(c, u, v)
  {
    hide GoesTo, Single, FanOut;
    if |r.wave| == 1 {
      SingleGoes(c, w, r);
    } else {
      FanOutGoes(c, w, r);
    }
  }

  lemma WaveFollows(c: Config, w: World, r: Run)
    requires Explicit(c) && r.outcome.None? && WaveStep(c, w, r).outcome.None?
    ensures AllKnown(r.wave, Lookup(c.steps))
    ensures forall v :: v in WaveStep(c, w, r).wave ==> exists u :: u in r.wave && Follows(c, u, v)
  {
    hide GoesTo, Follows, Explicit, WaveStep;
    WaveGoes(c, w, r);
    forall v | v in WaveStep(c, w, r).wave
      ensures exists u :: u in r.wave && Follows(c, u, v)
    {
      var u :| u in r.wave && GoesTo(c, u, v);
      ExplicitGoes(c, u, v);
    }
  }

  // ---------- length of a run ----------

  /** The graph of what the runtime can do: each step with all it can go on to. */
  function RunGraph(c: Config): Graph {
    map u | u in Lookup(c.steps) ::
      set v | v in NextStepIds(Lookup(c.steps)[u], Completed, c.steps) + Lookup(c.steps)[u].ErrorIds()
  }

  lemma RunEdge(c: Config, u: string, v: string)
    ensures GoesTo(c, u, v) <==> v in Out(RunGraph(c), u)
  {
    hide Lookup, NextStepIds;
  }

  /** A walk of k edges through steps of the workflow, from a step of the first wave to v. */
  ghost predicate Trail(c: Config, first: seq<string>, p: seq<string>, k: nat, v: string) {
    && |p| == k + 1 && IsWalk(RunGraph(c), p) && p[0] in first && p[k] == v
    && forall i :: 0 <= i <= k ==> p[i] in Lookup(c.steps)
  }

  ghost predicate HasTrail(c: Config, first: seq<string>, k: nat, v: string) {
    exists p :: Trail(c, first, p, k, v)
  }

  lemma ExtendTrail(c: Config, first: seq<string>, k: nat, u: string, v: string)
    requires HasTrail(c, first, k, u) && GoesTo(c, u, v) && v in Lookup(c.steps)
    ensures HasTrail(c, first, k + 1, v)
  {
    hide Lookup, RunGraph, GoesTo;
    var p :| Trail(c, first, p, k, u);
    var q := p + [v];
    RunEdge(c, u, v);
    forall i | 0 <= i < |q| - 1
      ensures q[i + 1] in Out(RunGraph(c), q[i])
    {
      if i < |p| - 1 {
        assert p[i + 1] in Out(RunGraph(c), p[i]);
      }
    }
    assert Trail(c, first, q, k + 1, v);
  }

  /** Every branch target names a step. */
  ghost predicate Closed(c: Config) {
    forall u, v :: Follows(c, u, v) ==> v != "" && v in Lookup(c.steps)
  }

  lemma AcceptedIsClosed(c: Config, actionId: Option<int>, registry: set<string>)
    requires Validator.Accepted(c.steps, actionId, registry)
    ensures Closed(c)
  {
    LookupSound(c.steps);
    hide Lookup, StepIds, UniqueIds, Validator.GloballyOk;
    forall u, v | Follows(c, u, v)
      ensures v != "" && v in Lookup(c.steps)
    {
      var i :| 0 <= i < |c.steps| && c.steps[i] == Lookup(c.steps)[u];
      assert Validator.StepOk(c.steps[i], StepIds(c.steps), registry);
      assert v in c.steps[i].SuccessIds() || v in c.steps[i].ErrorIds();
    }
  }

  lemma {:induction false} LaterAreSteps(order: int, steps: seq<Step>, s: Step)
    requires s in Later(order, steps)
    ensures s in steps && s.stepId != ""
  {
    var last := steps[|steps| - 1];
    if s in Later(order, steps[..|steps| - 1]) {
      LaterAreSteps(order, steps[..|steps| - 1], s);
    }
  }

  /** What the linear fallback picks is a step. */
  lemma FallbackIsStep(c: Config, s: Step)
    ensures forall v :: v in LinearNextStepIds(s, c.steps) ==> v in Lookup(c.steps)
  {
    hide Lookup, Later, StepIds;
    var later := Later(s.order, c.steps);
    if later != [] {
      var first := FirstByOrder(later);
      LaterAreSteps(s.order, c.steps, first);
      LookupSound(c.steps);
      StepIdsMember(c.steps, first.stepId);
    }
  }

  lemma GoesToStep(c: Config, u: string, v: string)
    requires Closed(c) && GoesTo(c, u, v)
    ensures v in Lookup(c.steps)
  {
    hide Lookup, LinearNextStepIds;
    if !Follows(c, u, v) {
      FallbackIsStep(c, Lookup(c.steps)[u]);
    }
  }

  /** A step of the k-th wave is the end of a walk of k edges from the first wave. */
  lemma {:induction false} WaveTrails(c: Config, w: World, wave: seq<string>, k: nat)
    requires Closed(c) && AllKnown(wave, Lookup(c.steps))
    ensures var r := After(c, w, Start(wave), k);
            r.outcome.None? ==> AllKnown(r.wave, Lookup(c.steps)) && forall v :: v in r.wave ==> HasTrail(c, wave, k, v)
  {
    hide WaveStep, Lookup, RunGraph, GoesTo, Closed;
    if k == 0 {
      forall v | v in wave
        ensures HasTrail(c, wave, 0, v)
      {
        assert Trail(c, wave, [v], 0, v);
      }
    } else {
      var r := After(c, w, Start(wave), k - 1);
      WaveTrails(c, w, wave, k - 1);
      if WaveStep(c, w, r).outcome.None? {
        if r.outcome.Some? {
          EndedStep(c, w, r);
        }
        WaveGoes(c, w, r);
        forall v | v in WaveStep(c, w, r).wave
          ensures v in Lookup(c.steps) && HasTrail(c, wave, k, v)
        {
          var u :| u in r.wave && GoesTo(c, u, v);
          GoesToStep(c, u, v);
          ExtendTrail(c, wave, k - 1, u, v);
        }
      }
    }
  }

  lemma ExplicitIsAcyclic(c: Config, actionId: Option<int>, registry: set<string>)
    requires Validator.Accepted(c.steps, actionId, registry) && Explicit(c) && c.steps != []
    ensures Acyclic(GraphOf(c.steps)) && !GateCheck.GateInFanOut(c.steps, StepIds(c.steps))
  {
    hide Acyclic, GraphOf, GateCheck.GateInFanOut, Validator.LocallyOk;
    assert Validator.UsesBranchesOrRetry(c.steps[0]);
  }

  lemma LookupEmpty(steps: seq<Step>)
    ensures steps == [] ==> Lookup(steps) == map[]
  {
  }

  lemma StepKeepsWaves(c: Config, w: World, r: Run)
    ensures var r' := WaveStep(c, w, r); r'.outcome.None? ==> r'.wave != []
  {
    hide Dedup, JoinPolicy, Finish, Lookup, HasStatus;
  }

  /** A walk of what the runtime can do, from a step of the first wave, that comes back to a step at its end. */
  ghost predicate Lasso(c: Config, first: seq<string>, p: seq<string>, i: nat) {
    i < |p| - 1 && p[0] in first && IsWalk(RunGraph(c), p) && p[i] == p[|p| - 1]
  }

  ghost predicate ReachesCycle(c: Config, first: seq<string>) {
    exists p, i: nat :: Lasso(c, first, p, i)
  }

  lemma AcyclicReachesNone(c: Config, first: seq<string>)
    requires Acyclic(RunGraph(c))
    ensures !ReachesCycle(c, first)
  {
    hide RunGraph;
    if p, i: nat :| Lasso(c, first, p, i) {
      RepeatIsCycle(RunGraph(c), p, i, |p| - 1);
    }
  }

  lemma TrailDiffers(c: Config, first: seq<string>, p: seq<string>, k: nat, v: string)
    requires Trail(c, first, p, k, v) && !ReachesCycle(c, first)
    ensures |p| <= |Lookup(c.steps)|
  {
    hide RunGraph, Lookup;
    forall i, j | 0 <= i < j < |p|
      ensures p[i] != p[j]
    {
      var q := p[..j + 1];
      forall m | 0 <= m < |q| - 1
        ensures q[m + 1] in Out(RunGraph(c), q[m])
      {
        assert p[m + 1] in Out(RunGraph(c), p[m]);
      }
      assert !Lasso(c, first, q, i);
    }
    DistinctFits(p, Lookup(c.steps).Keys);
  }

  /** When what the runtime can do leads from the first wave into no cycle, every run ends within as many waves as
      there are steps. */
  lemma RunLength(c: Config, w: World, wave: seq<string>)
    requires Closed(c) && !ReachesCycle(c, wave) && wave != [] && AllKnown(wave, Lookup(c.steps))
    ensures After(c, w, Start(wave), |Lookup(c.steps)|).outcome.Some?
  {
    hide WaveStep, Lookup, RunGraph, Closed, ReachesCycle;
    var n := |Lookup(c.steps)|;
    WaveTrails(c, w, wave, n);
    var r := After(c, w, Start(wave), n);
    if r.outcome.None? {
      if n > 0 {
        StepKeepsWaves(c, w, After(c, w, Start(wave), n - 1));
      }
      assert HasTrail(c, wave, n, r.wave[0]);
      var p :| Trail(c, wave, p, n, r.wave[0]);
      TrailDiffers(c, wave, p, n, r.wave[0]);
      assert false;
    }
  }

  lemma ExplicitRunGraph(c: Config)
    requires Explicit(c) && Closed(c) && Acyclic(GraphOf(c.steps))
    ensures Acyclic(RunGraph(c))
  {
    hide Lookup, RunGraph, Explicit, GoesTo, Acyclic;
    forall u | u in RunGraph(c)
      ensures RunGraph(c)[u] <= Out(GraphOf(c.steps), u)
    {
      forall v | v in RunGraph(c)[u]
        ensures v in Out(GraphOf(c.steps), u)
      {
        RunEdge(c, u, v);
        ExplicitGoes(c, u, v);
      }
    }
    SubgraphAcyclic(GraphOf(c.steps), RunGraph(c));
  }

  /** An accepted workflow ends within as many waves as it has steps, whatever its steps return and whatever
      join policies they name, when its success lists are explicit or its fallbacks close no cycle. */
  lemma AcceptedRunLength(c: Config, w: World, wave: seq<string>, actionId: Option<int>, registry: set<string>)
    requires Validator.Accepted(c.steps, actionId, registry) && (Explicit(c) || !ReachesCycle(c, wave))
    requires wave != [] && AllKnown(wave, Lookup(c.steps))
    ensures After(c, w, Start(wave), |Lookup(c.steps)|).outcome.Some?
  {
    hide After, Lookup, RunGraph, GraphOf, Explicit, Closed, Validator.Accepted, ReachesCycle;
    AcceptedIsClosed(c, actionId, registry);
    if Explicit(c) {
      LookupEmpty(c.steps);
      assert wave[0] in Lookup(c.steps);
      ExplicitIsAcyclic(c, actionId, registry);
      ExplicitRunGraph(c);
      AcyclicReachesNone(c, wave);
    }
    RunLength(c, w, wave);
  }
}
