/** How long runs are: the exact condition where no step is named twice or no list names two steps, and what
    acceptance alone does not give. */
module WaveLength {
  import opened Digraph
  import opened Workflow
  import opened Routing
  import opened Text
  import opened WaveRun
  import opened WaveTheorems
  import opened WaveGraph
  import opened WaveGates
  import opened WaveChoice
  import opened WaveEntries
  import Validator

  /** A step goes on to one step at most, whatever its outcome. */
  ghost predicate Narrow(c: Config) {
    forall u :: u in Lookup(c.steps) ==>
      |Dedup(NextStepIds(Lookup(c.steps)[u], Completed, c.steps))| <= 1 && |Dedup(Lookup(c.steps)[u].ErrorIds())| <= 1
  }

  /** Waves hold at most m steps, and no join policy holds a step back: no step is named twice, or each wave is
      a single step. */
  ghost predicate Width(c: Config, m: nat) {
    (NoJoins(c) && m >= |Lookup(c.steps)|) || (Narrow(c) && m == 1)
  }

  // ---------- a world that follows a lasso ----------

  /** The status with which u goes on to v. */
  function Needed(c: Config, u: string, v: string): (s: Status)
    ensures s == Completed || s == Failed
  {
    if u in Lookup(c.steps) && v in NextStepIds(Lookup(c.steps)[u], Completed, c.steps) then Completed else Failed
  }

  /** Where the lasso goes on from u. */
  function Onward(p: seq<string>, u: string): string
    requires p != [] && u in p[..|p| - 1]
  {
    p[LastIndex(p[..|p| - 1], u) + 1]
  }

  /** The steps of the lasso answer so that it goes on, all others complete. */
  function Pursuit(c: Config, p: seq<string>): string -> Status
    requires p != []
  {
    u => if u in p[..|p| - 1] then Needed(c, u, Onward(p, u)) else Completed
  }

  lemma PursuitIsPlain(c: Config, p: seq<string>)
    requires p != []
    ensures IsPlain(Pursuit(c, p))
  {
    hide Needed, Onward;
  }

  /** The lasso never leaves itself, and the answer of each of its steps leads on. */
  lemma LassoGoesOn(c: Config, first: seq<string>, p: seq<string>, i: nat, u: string)
    requires Lasso(c, first, p, i) && u in p[..|p| - 1]
    ensures Onward(p, u) in p[..|p| - 1] && GoesTo(c, u, Onward(p, u)) && Chosen(c, Pursuit(c, p), u, Onward(p, u))
  {
    hide Lookup, RunGraph, LinearNextStepIds;
    var k := LastIndex(p[..|p| - 1], u);
    assert p[k + 1] in Out(RunGraph(c), p[k]);
    RunEdge(c, p[k], p[k + 1]);
    if k + 1 == |p| - 1 {
      assert p[..|p| - 1][i] == p[k + 1];
    } else {
      assert p[..|p| - 1][k + 1] == p[k + 1];
    }
  }

  /** After k iterations the run goes on, with a step of the lasso in its wave. */
  ghost predicate OnLasso(c: Config, r: Run, p: seq<string>, m: nat, k: nat)
    requires p != []
  {
    && r.outcome.None? && NoDup(r.wave) && AllKnown(r.wave, Lookup(c.steps)) && |r.wave| <= m
    && (exists u :: u in r.wave && u in p[..|p| - 1]) && k <= r.transitions <= k * m
  }

  lemma NextFits(c: Config, w: World, r: Run, m: nat)
    requires Closed(c) && Width(c, m) && r.outcome.None? && WaveStep(c, w, r).outcome.None?
    requires NoDup(r.wave) && |r.wave| <= m
    ensures var wave := WaveStep(c, w, r).wave;
            NoDup(wave) && AllKnown(wave, Lookup(c.steps)) && |wave| <= m
  {
    hide Lookup, Closed, NoJoins, Narrow, GoesTo, WaveStep;
    StepOrders(c, w, r);
    WaveGoes(c, w, r);
    var wave := WaveStep(c, w, r).wave;
    forall v | v in wave
      ensures v in Lookup(c.steps)
    {
      var u :| u in r.wave && GoesTo(c, u, v);
      GoesToStep(c, u, v);
    }
    if NoJoins(c) && m >= |Lookup(c.steps)| {
      DistinctFits(wave, Lookup(c.steps).Keys);
    } else {
      NarrowWave(c, w, r);
    }
  }

  lemma NarrowWave(c: Config, w: World, r: Run)
    requires Narrow(c) && |r.wave| <= 1 && r.outcome.None? && WaveStep(c, w, r).outcome.None?
    ensures |WaveStep(c, w, r).wave| <= 1
  {
    hide Lookup, Dedup, LinearNextStepIds, FanOut;
  }

  lemma NextOnLasso(c: Config, first: seq<string>, p: seq<string>, i: nat, r: Run, m: nat, k: nat)
    requires Closed(c) && Width(c, m) && Lasso(c, first, p, i) && OnLasso(c, r, p, m, k)
    requires r.transitions + |r.wave| <= c.maxTransitions
    ensures OnLasso(c, WaveStep(c, Answering(Pursuit(c, p)), r), p, m, k + 1)
  {
    hide Lookup, Closed, NoJoins, Narrow, Chosen, WaveStep, Pursuit, Onward, RunGraph, IsPlain, Answering;
    var w := Answering(Pursuit(c, p));
    var u :| u in r.wave && u in p[..|p| - 1];
    var t := Onward(p, u);
    LassoGoesOn(c, first, p, i, u);
    GoesToStep(c, u, t);
    PursuitIsPlain(c, p);
    if NoJoins(c) {
      GoesOnTo(c, Pursuit(c, p), r, u, t);
    } else {
      AloneGoesOn(c, Pursuit(c, p), r, t);
    }
    NextFits(c, w, r, m);
    DispatchesWave(c, w, r);
  }

  lemma AloneGoesOn(c: Config, f: string -> Status, r: Run, t: string)
    requires IsPlain(f) && |r.wave| == 1 && r.outcome.None? && r.transitions + 1 <= c.maxTransitions
    requires Chosen(c, f, r.wave[0], t)
    ensures var r' := WaveStep(c, Answering(f), r);
            r'.outcome.None? && t in r'.wave
  {
    hide Single, IsPlain, Chosen;
    SingleGoesOn(c, f, r, t);
  }

  lemma MoreRoom(k: nat, n: nat, m: nat)
    requires k < n
    ensures k * m + m <= n * m
  {
    assert (k + 1) * m <= n * m;
  }

  lemma {:induction false} LassoFor(c: Config, first: seq<string>, p: seq<string>, i: nat, m: nat, k: nat, n: nat)
    requires Closed(c) && Width(c, m) && Lasso(c, first, p, i) && k <= n && n * m <= c.maxTransitions
    requires NoDup(first) && AllKnown(first, Lookup(c.steps)) && |first| <= m
    ensures OnLasso(c, After(c, Answering(Pursuit(c, p)), Start(first), k), p, m, k)
  {
    hide WaveStep, Closed, Width, RunGraph, Answering, Pursuit;
    if k == 0 {
      assert p[0] == p[..|p| - 1][0];
    } else {
      LassoFor(c, first, p, i, m, k - 1, n);
      MoreRoom(k - 1, n, m);
      NextOnLasso(c, first, p, i, After(c, Answering(Pursuit(c, p)), Start(first), k - 1), m, k - 1);
    }
  }

  // ---------- the exact length ----------

  /** Every run from this first wave ends within as many waves as there are steps. */
  ghost predicate RunsEnd(c: Config, first: seq<string>) {
    forall w: World :: After(c, w, Start(first), |Lookup(c.steps)|).outcome.Some?
  }

  /** Where no step is named twice, or no list names two steps, runs from a first wave end within as many waves as
      there are steps exactly when the lists and the fallbacks by order lead from it into no cycle. */
  lemma RunLengthFromIff(c: Config, first: seq<string>, m: nat)
    requires Closed(c) && Width(c, m) && c.maxTransitions >= |Lookup(c.steps)| * m
    requires first != [] && NoDup(first) && AllKnown(first, Lookup(c.steps)) && |first| <= m
    ensures RunsEnd(c, first) <==> !ReachesCycle(c, first)
  {
    hide After, Closed, Width, Lasso, Lookup, Answering, Pursuit;
    if p, i: nat :| Lasso(c, first, p, i) {
      LassoNotEmpty(c, first, p, i);
      LassoFor(c, first, p, i, m, |Lookup(c.steps)|, |Lookup(c.steps)|);
    } else {
      forall w: World
        ensures After(c, w, Start(first), |Lookup(c.steps)|).outcome.Some?
      {
        RunLength(c, w, first);
      }
    }
  }

  lemma LassoNotEmpty(c: Config, first: seq<string>, p: seq<string>, i: nat)
    requires Lasso(c, first, p, i)
    ensures p != []
  {
  }

  /** Every run from a single step ends within as many waves as there are steps. */
  ghost predicate RunsAreShort(c: Config) {
    forall id :: id in Lookup(c.steps) ==> RunsEnd(c, [id])
  }

  lemma CycleIsReached(c: Config, p: seq<string>)
    requires IsCycle(RunGraph(c), p)
    ensures p[0] in Lookup(c.steps) && ReachesCycle(c, [p[0]])
  {
    hide Lookup, NextStepIds;
    assert p[0 + 1] in Out(RunGraph(c), p[0]);
    assert Lasso(c, [p[0]], p, 0);
  }

  /** From every single step this is so exactly when the lists and the fallbacks by order close no cycle. */
  lemma RunLengthIff(c: Config, m: nat)
    requires Closed(c) && Width(c, m) && c.maxTransitions >= |Lookup(c.steps)| * m
    ensures RunsAreShort(c) <==> Acyclic(RunGraph(c))
  {
    hide RunsEnd, Closed, RunGraph, Lookup, NoJoins, Narrow, ReachesCycle;
    forall id | id in Lookup(c.steps)
      ensures RunsEnd(c, [id]) <==> !ReachesCycle(c, [id])
    {
      SomeStep(c, id);
      RunLengthFromIff(c, [id], m);
    }
    if Acyclic(RunGraph(c)) {
      forall id | id in Lookup(c.steps)
        ensures RunsEnd(c, [id])
      {
        AcyclicReachesNone(c, [id]);
      }
    } else {
      var p :| IsCycle(RunGraph(c), p);
      CycleIsReached(c, p);
    }
  }

  lemma SomeStep(c: Config, id: string)
    requires id in Lookup(c.steps)
    ensures |Lookup(c.steps)| >= 1
  {
    assert id in Lookup(c.steps).Keys;
  }

  // ---------- acceptance is not enough ----------

  /** B goes on to A; A has no success list, so it falls back to the next step by order, which is B. */
  const FALLBACK := [PlainStep("A", 1, Missing, Is([])), PlainStep("B", 2, Is(["A"]), Is([]))]

  lemma FallbackLookups()
    ensures Lookup(FALLBACK) == map["A" := FALLBACK[0], "B" := FALLBACK[1]] && StepIds(FALLBACK) == {"A", "B"}
    ensures UniqueIds(FALLBACK)
  {
    hide Lookup, StepIds, UniqueIds;
    LookupPair(FALLBACK[0], FALLBACK[1]);
  }

  lemma FallbackStepsOk(registry: set<string>)
    ensures forall i :: 0 <= i < 2 ==> Validator.StepOk(FALLBACK[i], {"A", "B"}, registry)
    ensures forall i :: 0 <= i < 2 ==> Validator.IdOk(FALLBACK[i], true)
  {
    assert !IsSpace("A"[0]) && !IsSpace("B"[0]);
  }

  lemma FallbackAcyclic()
    ensures Acyclic(GraphOf(FALLBACK))
  {
    hide Lookup;
    FallbackLookups();
    var rank: map<string, nat> := map["A" := 0, "B" := 1];
    assert IsRank(GraphOf(FALLBACK), rank, 2);
    RankExcludesCycles(GraphOf(FALLBACK), rank, 2);
  }

  lemma FallbackAccepted(registry: set<string>)
    ensures Validator.Accepted(FALLBACK, None, registry)
  {
    hide Lookup, StepIds, UniqueIds, GraphOf, Acyclic, Validator.StepOk, Validator.IdOk;
    FallbackLookups();
    FallbackStepsOk(registry);
    FallbackAcyclic();
    assert Validator.IsExit(FALLBACK[0]) && Validator.UsesBranchesOrRetry(FALLBACK[0]);
    assert forall s :: s in FALLBACK ==> |s.SuccessIds()| < 2 && |s.ErrorIds()| < 2;
  }

  lemma FallbackRoutes()
    ensures NextStepIds(FALLBACK[0], Completed, FALLBACK) == ["B"]
      && NextStepIds(FALLBACK[1], Completed, FALLBACK) == ["A"]
  {
    var t := FALLBACK;
    assert t[..1] == [t[0]] && t[..1][..0] == [];
    assert Later(1, t[..1]) == [];
    assert Later(1, t) == [t[1]];
  }

  lemma FallbackLasso(max: nat)
    ensures var c := Config(FALLBACK, max);
            Narrow(c) && Closed(c) && Lasso(c, ["B"], ["B", "A", "B"], 0) && AllKnown(["B"], Lookup(c.steps))
  {
    hide Lookup, Dedup, NextStepIds;
    FallbackLookups();
    FallbackRoutes();
    DedupFacts(["A"]);
    DedupFacts(["B"]);
    DedupFacts([]);
    var c := Config(FALLBACK, max);
    RunEdge(c, "A", "B");
    RunEdge(c, "B", "A");
    var p := ["B", "A", "B"];
    assert forall i :: 0 <= i < 2 ==> p[i + 1] in Out(RunGraph(c), p[i]);
  }

  lemma FallbackEntries(targets: set<string>)
    requires "A" in targets && "B" !in targets
    ensures EntriesAmong(FALLBACK, targets) == ["B"]
  {
    var s := FALLBACK;
    assert !IsSpace("A"[0]) && !IsSpace("B"[0]) && !Blank("A") && !Blank("B");
    assert s[..1] == [s[0]] && s[..1][..0] == [];
    assert EntriesAmong(s[..1], targets) == [];
  }

  lemma FallbackIds()
    ensures ProperIds(FALLBACK)
  {
    hide Lookup, Strip, Blank;
    FallbackLookups();
    StripKeeps("A");
    StripKeeps("B");
  }

  lemma FallbackEdges(max: nat)
    ensures var c := Config(FALLBACK, max); NoParent(c, "B") && !NoParent(c, "A")
  {
    hide Lookup;
    FallbackLookups();
    assert Follows(Config(FALLBACK, max), "B", "A");
  }

  lemma FallbackFirst(max: nat)
    ensures InitialWave(FALLBACK, []) == Some(["B"])
  {
    hide Lookup, Closed, Acyclic, StrippedTargets, EntriesAmong, FirstListed, InitialWave, FirstWave, NoParent, Narrow,
         Lasso, ProperIds, GraphOf;
    var c := Config(FALLBACK, max);
    FallbackLasso(max);
    FallbackAcyclic();
    FallbackEdges(max);
    FallbackIds();
    TargetsAreNamed(c, "A");
    TargetsAreNamed(c, "B");
    FallbackEntries(StrippedTargets(FALLBACK));
    EntriesAre(c, ["B"], "A");
  }

  /** At the cap the attempted step fails, and its error list is empty. */
  lemma CapEndsFallback(max: nat, r: Run)
    requires OnLasso(Config(FALLBACK, max), r, ["B", "A", "B"], 1, max)
    ensures WaveStep(Config(FALLBACK, max), Answering(Pursuit(Config(FALLBACK, max), ["B", "A", "B"])), r).outcome ==
      Some(Done(Failed))
  {
    FallbackLookups();
    hide Lookup, Pursuit, LinearNextStepIds, FanOut;
    assert |r.wave| == 1 && r.wave[0] in {"A", "B"};
  }

  /** So acceptance alone does not bound the number of waves by the number of steps: this workflow is accepted, and
      from the runtime's first wave it goes round until the cap fails it. */
  lemma AcceptedCanCircle(max: nat)
    ensures Validator.Accepted(FALLBACK, None, {}) && InitialWave(FALLBACK, []) == Some(["B"])
    ensures var c := Config(FALLBACK, max);
            var w := Answering(Pursuit(c, ["B", "A", "B"]));
            && After(c, w, Start(["B"]), max).outcome == None && After(c, w, Start(["B"]), max).transitions == max
            && After(c, w, Start(["B"]), max + 1).outcome == Some(Done(Failed))
  {
    hide WaveStep, Closed, Narrow, RunGraph, Validator.Accepted, InitialWave, Lookup, Pursuit, Answering;
    FallbackAccepted({});
    FallbackFirst(max);
    FallbackLasso(max);
    var c := Config(FALLBACK, max);
    LassoFor(c, ["B"], ["B", "A", "B"], 0, 1, max, max);
    CapEndsFallback(max, After(c, Answering(Pursuit(c, ["B", "A", "B"])), Start(["B"]), max));
  }
}
