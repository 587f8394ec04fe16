/** Where gates run: the guarantee the gate check gives the runtime, and where it ends. */
module WaveGates {
  import opened Digraph
  import opened Workflow
  import opened Routing
  import opened WaveRun
  import opened WaveGraph
  import opened Text
  import Validator
  import GateCheck

  ghost predicate NoJoins(c: Config) {
    GateCheck.JoinPoints(c.steps, StepIds(c.steps)) == {}
  }

  /** v lies in a branch started by a list with at least two targets, or by a first wave of at least two steps. */
  ghost predicate InBranch(c: Config, first: seq<string>, v: string) {
    || InBranchOf(c, first, v)
    || exists s :: s in c.steps && (InBranchOf(c, s.SuccessIds(), v) || InBranchOf(c, s.ErrorIds(), v))
  }

  ghost predicate InBranchOf(c: Config, ids: seq<string>, v: string) {
    |ids| >= 2 && GateCheck.Reached(Lookup(c.steps), {}, ids, v)
  }

  lemma BranchHasNoGate(c: Config, first: seq<string>, v: string)
    requires NoJoins(c) && !GateCheck.GateInFanOut(c.steps, StepIds(c.steps))
    requires InBranch(c, first, v) && !InBranchOf(c, first, v)
    ensures !GateCheck.IsGateId(Lookup(c.steps), v)
  {
  }

  lemma BranchGoesOn(c: Config, first: seq<string>, u: string, v: string)
    requires InBranch(c, first, u) && Follows(c, u, v)
    ensures InBranch(c, first, v)
  {
    if InBranchOf(c, first, u) {
      GateCheck.ReachedNext(Lookup(c.steps), {}, first, u, v);
    } else {
      var s :| s in c.steps && (InBranchOf(c, s.SuccessIds(), u) || InBranchOf(c, s.ErrorIds(), u));
      var ids := if InBranchOf(c, s.SuccessIds(), u) then s.SuccessIds() else s.ErrorIds();
      GateCheck.ReachedNext(Lookup(c.steps), {}, ids, u, v);
    }
  }

  lemma FanOutStartsBranches(c: Config, first: seq<string>, s: Step, ids: seq<string>, v: string)
    requires s in c.steps && (ids == s.SuccessIds() || ids == s.ErrorIds())
    requires |ids| >= 2 && v in ids
    ensures InBranch(c, first, v)
  {
    GateCheck.ReachedStart(Lookup(c.steps), {}, ids, v);
  }

  ghost predicate ParallelInBranch(c: Config, first: seq<string>, r: Run) {
    |r.wave| >= 2 ==> forall v :: v in r.wave ==> InBranch(c, first, v)
  }

  lemma StepStaysInBranch(c: Config, w: World, first: seq<string>, r: Run)
    requires Explicit(c) && ParallelInBranch(c, first, r)
    ensures ParallelInBranch(c, first, WaveStep(c, w, r))
  {
    var r' := WaveStep(c, w, r);
    if r.outcome.Some? || r.wave == [] || w.cancelled(r.ticks) || |r'.wave| < 2 {
      return;
    }
    if |r.wave| == 1 {
      SingleStartsBranches(c, w, first, r);
    } else {
      FanOutStaysInBranch(c, w, first, r);
    }
  }

  lemma SingleStartsBranches(c: Config, w: World, first: seq<string>, r: Run)
    requires Explicit(c) && |r.wave| == 1 && r.outcome.None?
    ensures ParallelInBranch(c, first, Single(c, w, r))
  {
    hide Lookup, Dedup, InBranch, Explicit, NextStepIds;
    var r' := Single(c, w, r);
    if |r'.wave| >= 2 {
      assert r'.outcome.None?;
      SingleFollows(c, w, r);
      var step := Lookup(c.steps)[r.wave[0]];
      LookupSound(c.steps);
      DedupFacts(step.SuccessIds());
      DedupFacts(step.ErrorIds());
      var ids := if r'.wave == Dedup(step.SuccessIds()) then step.SuccessIds() else step.ErrorIds();
      forall v | v in r'.wave
        ensures InBranch(c, first, v)
      {
        FanOutStartsBranches(c, first, step, ids, v);
      }
    }
  }

  lemma FanOutStaysInBranch(c: Config, w: World, first: seq<string>, r: Run)
    requires Explicit(c) && |r.wave| >= 2 && ParallelInBranch(c, first, r) && r.outcome.None?
    ensures ParallelInBranch(c, first, FanOut(c, w, r))
  {
    hide Lookup, Dedup, InBranch, Explicit, Follows, GoesTo, JoinPolicy, Finish, HasStatus;
    var r' := FanOut(c, w, r);
    if r'.outcome.None? {
      FanOutGoes(c, w, r);
      forall v | v in r'.wave
        ensures InBranch(c, first, v)
      {
        var u :| u in r.wave && GoesTo(c, u, v);
        ExplicitGoes(c, u, v);
        BranchGoesOn(c, first, u, v);
      }
    }
  }

  lemma {:induction false} ParallelWavesInBranch(c: Config, w: World, first: seq<string>, k: nat)
    requires Explicit(c)
    ensures ParallelInBranch(c, first, After(c, w, Start(first), k))
  {
    hide WaveStep, Explicit, InBranch;
    if k > 0 {
      hide ParallelInBranch;
      ParallelWavesInBranch(c, w, first, k - 1);
      StepStaysInBranch(c, w, first, After(c, w, Start(first), k - 1));
    } else {
      forall v | v in first && |first| >= 2
        ensures InBranch(c, first, v)
      {
        FirstStartsBranches(c, first, v);
      }
    }
  }

  lemma FirstStartsBranches(c: Config, first: seq<string>, v: string)
    requires v in first && |first| >= 2
    ensures InBranch(c, first, v)
  {
    GateCheck.ReachedStart(Lookup(c.steps), {}, first, v);
  }

  /** The gate search without its stop at join points finds nothing, from the lists nor from the first wave. */
  ghost predicate NoGateInBranches(c: Config, first: seq<string>) {
    forall v :: InBranch(c, first, v) ==> !GateCheck.IsGateId(Lookup(c.steps), v)
  }

  ghost predicate HasNoGate(c: Config, wave: seq<string>) {
    forall v :: v in wave ==> !GateCheck.IsGateId(Lookup(c.steps), v)
  }

  /** When no gate lies below a target of a list with two targets or more, nor below a step of a first wave of two
      steps or more, join points or not, no run from that wave ever has a gate in a wave of two or more steps. */
  lemma GatesRunAlone(c: Config, w: World, first: seq<string>, k: nat)
    requires Explicit(c) && NoGateInBranches(c, first)
    ensures var wave := After(c, w, Start(first), k).wave;
            |wave| >= 2 ==> HasNoGate(c, wave)
  {
    hide After, Lookup, Explicit, InBranch, GateCheck.IsGateId;
    ParallelWavesInBranch(c, w, first, k);
  }

  /** In a workflow without join points acceptance gives this for the lists; what lies below a first wave of
      several steps no check looks at. */
  lemma AcceptedGatesRunAlone(c: Config, w: World, first: seq<string>, k: nat,
                              actionId: Option<int>, registry: set<string>)
    requires Validator.Accepted(c.steps, actionId, registry) && Explicit(c) && NoJoins(c) && c.steps != []
    requires forall v :: InBranchOf(c, first, v) ==> !GateCheck.IsGateId(Lookup(c.steps), v)
    ensures var wave := After(c, w, Start(first), k).wave;
            |wave| >= 2 ==> HasNoGate(c, wave)
  {
    hide After, Lookup, Explicit, NoJoins, Validator.Accepted, GateCheck.GateInFanOut, InBranch, InBranchOf,
         GateCheck.IsGateId;
    ExplicitIsAcyclic(c, actionId, registry);
    forall v | InBranch(c, first, v)
      ensures !GateCheck.IsGateId(Lookup(c.steps), v)
    {
      if !InBranchOf(c, first, v) {
        BranchHasNoGate(c, first, v);
      }
    }
    GatesRunAlone(c, w, first, k);
  }

  // ---------- the comment in the runtime claims more ----------

  function GateStep(id: string, order: int, onSuccess: Field<seq<string>>, onError: Field<seq<string>>): Step {
    PlainStep(id, order, onSuccess, onError).(stepType := Some("gate"), gateType := Some("approval"),
      referencedActionId := None)
  }

  /** A goes on to G and C in parallel, and C goes on to the gate G: G is a join point, so the check skips it. */
  const GATE_AT_JOIN := [
    PlainStep("A", 1, Is(["G", "C"]), Is([])),
    PlainStep("C", 2, Is(["G"]), Is([])),
    GateStep("G", 3, Is([]), Is([]))]

  lemma GateAtJoinLookup()
    ensures Lookup(GATE_AT_JOIN) == map["A" := GATE_AT_JOIN[0], "C" := GATE_AT_JOIN[1], "G" := GATE_AT_JOIN[2]]
    ensures StepIds(GATE_AT_JOIN) == {"A", "C", "G"}
    ensures GateCheck.AllTargets(GATE_AT_JOIN) == ["G", "C", "G"]
  {
    var s := GATE_AT_JOIN;
    assert s[..2][..1] == s[..1] && s[..1][..0] == [];
    assert s[..2] == [s[0], s[1]] && s[..1] == [s[0]];
    assert Lookup(s[..1]) == map["A" := s[0]];
    assert Lookup(s[..2]) == map["A" := s[0], "C" := s[1]];
    assert StepIds(s[..1]) == {"A"};
    assert StepIds(s[..2]) == {"A", "C"};
    assert GateCheck.AllTargets(s[..1]) == ["G", "C"];
    assert GateCheck.AllTargets(s[..2]) == ["G", "C", "G"];
  }

  lemma ApprovalIsTrimmed()
    ensures Strip("approval") == "approval" && !Blank("approval")
  {
    hide Strip, Blank;
    StripKeeps("approval");
  }

  lemma GateAtJoinStepsOk()
    ensures forall i :: 0 <= i < 3 ==> Validator.StepOk(GATE_AT_JOIN[i], {"A", "C", "G"}, {"approval"})
    ensures forall i :: 0 <= i < 3 ==> Validator.IdOk(GATE_AT_JOIN[i], true)
  {
    hide Strip, Blank;
    StripKeeps("A");
    StripKeeps("C");
    StripKeeps("G");
    ApprovalIsTrimmed();
  }

  lemma GateAtJoinAccepted()
    ensures Validator.Accepted(GATE_AT_JOIN, None, {"approval"})
  {
    hide Lookup, GraphOf, Acyclic, GateCheck.GateInFanOut, Validator.StepOk, Validator.IdOk, StepIds;
    GateAtJoinLookup();
    GateAtJoinStepsOk();
    assert Validator.IsExit(GATE_AT_JOIN[2]);
    assert Validator.UsesBranchesOrRetry(GATE_AT_JOIN[0]);
    GateAtJoinAcyclic();
    GateAtJoinSkipped();
  }

  lemma GateAtJoinAcyclic()
    ensures Acyclic(GraphOf(GATE_AT_JOIN))
  {
    GateAtJoinLookup();
    var rank: map<string, nat> := map["A" := 2, "C" := 1, "G" := 0];
    assert IsRank(GraphOf(GATE_AT_JOIN), rank, 3);
    RankExcludesCycles(GraphOf(GATE_AT_JOIN), rank, 3);
  }

  lemma GateAtJoinJoins()
    ensures GateCheck.JoinPoints(GATE_AT_JOIN, StepIds(GATE_AT_JOIN)) == {"G"}
  {
    hide StepIds, GateCheck.AllTargets, Lookup;
    GateAtJoinLookup();
    assert multiset(["G", "C", "G"]) == multiset{"G", "C", "G"};
  }

  lemma GateAtJoinSkipped()
    ensures !GateCheck.GateInFanOut(GATE_AT_JOIN, StepIds(GATE_AT_JOIN))
  {
    hide StepIds, Lookup, GateCheck.JoinPoints, GateCheck.Reached;
    GateAtJoinLookup();
    GateAtJoinJoins();
    GateCheck.NoGateReached(Lookup(GATE_AT_JOIN), {"G"}, ["G", "C"], {"C"});
    assert forall s :: s in GATE_AT_JOIN ==>
      |s.ErrorIds()| < 2 && (s.SuccessIds() == ["G", "C"] || |s.SuccessIds()| < 2);
  }

  /** An accepted workflow whose gate G runs inside a wave of two steps. */
  lemma GateCanRunInFanOut(w: World)
    requires !w.cancelled(0) && w.attempt(1, "A") == Returns(Completed)
    ensures Validator.Accepted(GATE_AT_JOIN, None, {"approval"})
    ensures var r := After(Config(GATE_AT_JOIN, 100), w, Start(["A"]), 1);
            r.outcome == None && r.wave == ["G", "C"] && GateCheck.IsGateId(Lookup(GATE_AT_JOIN), "G")
  {
    GateAtJoinAccepted();
    GateAtJoinLookup();
    hide Lookup, Validator.Accepted, LinearNextStepIds;
    var c := Config(GATE_AT_JOIN, 100);
    assert Dedup(["G", "C"]) == ["G", "C"] by {
      assert ["G", "C"][..1] == ["G"] && Dedup(["G"]) == ["G"];
    }
    assert After(c, w, Start(["A"]), 1) == WaveStep(c, w, After(c, w, Start(["A"]), 0));
  }
}
