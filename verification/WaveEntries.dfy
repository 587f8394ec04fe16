/** The runtime's first wave: the steps no list names. With it, exactly when a gate can run beside another step
    in a workflow without join points. */
module WaveEntries {
  import opened Digraph
  import opened Workflow
  import opened Routing
  import opened Text
  import opened WaveRun
  import opened WaveGraph
  import opened WaveGates
  import opened WaveGateDepth
  import opened WaveGateWorld
  import opened WaveChoice
  import Validator
  import GateCheck

  /** Every step has an id of its own, without surrounding blanks. */
  ghost predicate ProperIds(steps: seq<Step>) {
    UniqueIds(steps) && forall i :: 0 <= i < |steps| ==>
      !Blank(steps[i].stepId) && Strip(steps[i].stepId) == steps[i].stepId
  }

  /** The wave the runtime starts with; none when it runs the steps by order or there are none. */
  function FirstWave(c: Config): seq<string> {
    if c.steps == [] then [] else
      match InitialWave(c.steps, [])
      case Some(wave) => wave
      case None => []
  }

  ghost predicate NoParent(c: Config, v: string) {
    forall u :: !Follows(c, u, v)
  }

  // ---------- the entries ----------

  lemma {:induction false} EntriesMember(steps: seq<Step>, targets: set<string>, id: string)
    ensures id in EntriesAmong(steps, targets) <==>
      !Blank(id) && id !in targets && exists i :: 0 <= i < |steps| && steps[i].stepId == id
  {
    hide Blank;
    if steps != [] {
      var n := |steps| - 1;
      EntriesMember(steps[..n], targets, id);
      assert forall i :: 0 <= i < n ==> steps[..n][i] == steps[i];
    }
  }

  lemma {:induction false} EntriesDiffer(steps: seq<Step>, targets: set<string>)
    requires UniqueIds(steps)
    ensures NoDup(EntriesAmong(steps, targets))
  {
    hide Blank;
    if steps != [] {
      var n := |steps| - 1;
      EntriesDiffer(steps[..n], targets);
      var id := steps[n].stepId;
      EntriesMember(steps[..n], targets, id);
      if !Blank(id) {
        NotBlank(id);
      }
    }
  }

  lemma NotBlank(id: string)
    requires !Blank(id)
    ensures id != ""
  {
  }

  lemma {:induction false} FirstIsListed(steps: seq<Step>, ids: seq<string>)
    ensures FirstListed(steps, ids).Some? ==> FirstListed(steps, ids).value.stepId in ids
  {
    if steps != [] {
      FirstIsListed(steps[..|steps| - 1], ids);
    }
  }

  lemma OwnStep(steps: seq<Step>, i: nat)
    requires ProperIds(steps) && i < |steps|
    ensures steps[i].stepId in Lookup(steps) && Lookup(steps)[steps[i].stepId] == steps[i]
  {
    NotBlank(steps[i].stepId);
    LookupUnique(steps, i);
  }

  lemma IdOfStep(steps: seq<Step>, v: string)
    requires ProperIds(steps) && v in Lookup(steps)
    ensures !Blank(v) && Strip(v) == v && exists i :: 0 <= i < |steps| && steps[i].stepId == v
  {
    hide Blank, Strip;
    LookupSound(steps);
  }

  /** With such ids the runtime takes for named exactly what a list names. */
  lemma TargetsAreNamed(c: Config, v: string)
    requires ProperIds(c.steps) && Closed(c)
    ensures v in StrippedTargets(c.steps) <==> !NoParent(c, v)
  {
    hide Blank, Strip, Lookup, UniqueIds, Closed;
    if v in StrippedTargets(c.steps) {
      var i, t :| 0 <= i < |c.steps| && t in c.steps[i].SuccessIds() + c.steps[i].ErrorIds() && !Blank(t)
        && Strip(t) == v;
      OwnStep(c.steps, i);
      assert Follows(c, c.steps[i].stepId, t);
      FollowsEdge(c, c.steps[i].stepId, t);
      IdOfStep(c.steps, t);
    }
    if !NoParent(c, v) {
      var u :| Follows(c, u, v);
      LookupSound(c.steps);
      var i :| 0 <= i < |c.steps| && c.steps[i] == Lookup(c.steps)[u];
      FollowsEdge(c, u, v);
      IdOfStep(c.steps, v);
      assert v in c.steps[i].SuccessIds() + c.steps[i].ErrorIds();
    }
  }

  lemma EntryIsParentless(c: Config, v: string)
    requires ProperIds(c.steps) && Closed(c)
    ensures v in EntriesAmong(c.steps, StrippedTargets(c.steps)) <==> v in Lookup(c.steps) && NoParent(c, v)
  {
    hide Blank, Strip, Lookup, Closed, StrippedTargets, NoParent, EntriesAmong;
    TargetsAreNamed(c, v);
    EntriesMember(c.steps, StrippedTargets(c.steps), v);
    if i :| 0 <= i < |c.steps| && c.steps[i].stepId == v {
      OwnStep(c.steps, i);
    }
    if v in Lookup(c.steps) {
      IdOfStep(c.steps, v);
    }
  }

  // ---------- every step lies below a step that no list names ----------

  lemma {:induction false} RootAbove(c: Config, p: seq<string>, u: string) returns (e: string, m: nat)
    requires Closed(c) && Acyclic(GraphOf(c.steps)) && p != [] && u in Lookup(c.steps)
    requires Descent(c, p, p[0], |p| - 1, u) && forall i :: 0 <= i < |p| ==> p[i] in Lookup(c.steps)
    ensures e in Lookup(c.steps) && NoParent(c, e) && Under(c, e, m, u)
    decreases |Lookup(c.steps)| - |p|
  {
    hide Lookup, Follows, Closed, Acyclic;
    DescentIsWalk(c, p, p[0], |p| - 1, u);
    WalkFits(GraphOf(c.steps), p, Lookup(c.steps).Keys);
    if NoParent(c, p[0]) {
      e, m := p[0], |p| - 1;
    } else {
      var parent :| Follows(c, parent, p[0]);
      FollowsEdge(c, parent, p[0]);
      var longer := [parent] + p;
      forall i | 0 <= i < |p|
        ensures Follows(c, longer[i], longer[i + 1])
      {
        if i > 0 {
          assert Follows(c, p[i - 1], p[i - 1 + 1]);
        }
      }
      DescentIsWalk(c, longer, parent, |p|, u);
      WalkFits(GraphOf(c.steps), longer, Lookup(c.steps).Keys);
      e, m := RootAbove(c, longer, u);
    }
  }

  lemma BelowRoot(c: Config, u: string) returns (e: string, m: nat)
    requires Closed(c) && Acyclic(GraphOf(c.steps)) && u in Lookup(c.steps)
    ensures e in Lookup(c.steps) && NoParent(c, e) && Under(c, e, m, u)
  {
    hide Lookup, Follows, Closed, Acyclic;
    e, m := RootAbove(c, [u], u);
  }

  // ---------- the first wave ----------

  lemma HasEntry(c: Config)
    requires Closed(c) && Acyclic(GraphOf(c.steps)) && ProperIds(c.steps) && c.steps != []
    ensures EntriesAmong(c.steps, StrippedTargets(c.steps)) != []
  {
    hide Lookup, Closed, Acyclic, StrippedTargets, EntriesAmong, NoParent;
    OwnStep(c.steps, 0);
    var e, m := BelowRoot(c, c.steps[0].stepId);
    EntryIsParentless(c, e);
  }

  lemma EntryIdsAmong(steps: seq<Step>)
    ensures var entries := EntriesAmong(steps, StrippedTargets(steps));
            && (entries != [] ==> EntryStepIds(steps) != [])
            && forall v :: v in EntryStepIds(steps) ==> v in entries
  {
    hide StrippedTargets, EntriesAmong, FirstListed;
    FirstIsListed(steps, EntriesAmong(steps, StrippedTargets(steps)));
  }

  lemma InitialIsEntries(steps: seq<Step>)
    requires steps != [] && EntryStepIds(steps) != [] && forall v :: v in EntryStepIds(steps) ==> v in Lookup(steps)
    ensures InitialWave(steps, []) == Some(EntryStepIds(steps))
  {
    hide EntryStepIds, Lookup, Known, FirstByOrder;
    KnownAll(EntryStepIds(steps), Lookup(steps));
  }

  lemma WaveIsEntryIds(c: Config)
    requires Closed(c) && Acyclic(GraphOf(c.steps)) && ProperIds(c.steps) && c.steps != []
    ensures forall v :: v in EntryStepIds(c.steps) ==> v in Lookup(c.steps) && NoParent(c, v)
    ensures InitialWave(c.steps, []) == Some(EntryStepIds(c.steps)) && FirstWave(c) == EntryStepIds(c.steps)
  {
    hide Lookup, Closed, Acyclic, StrippedTargets, EntriesAmong, NoParent, EntryStepIds, InitialWave, ProperIds;
    HasEntry(c);
    EntryIdsAmong(c.steps);
    forall v | v in EntryStepIds(c.steps)
      ensures v in Lookup(c.steps) && NoParent(c, v)
    {
      EntryIsParentless(c, v);
    }
    InitialIsEntries(c.steps);
  }

  /** The first wave consists of different steps that no list names. */
  lemma FirstWaveRoots(c: Config)
    requires Closed(c) && Acyclic(GraphOf(c.steps)) && ProperIds(c.steps)
    ensures NoDup(FirstWave(c)) && forall v :: v in FirstWave(c) ==> v in Lookup(c.steps) && NoParent(c, v)
    ensures c.steps != [] ==> InitialWave(c.steps, []) == Some(FirstWave(c))
  {
    hide Lookup, Closed, Acyclic, StrippedTargets, EntriesAmong, NoParent, FirstListed, InitialWave;
    if c.steps != [] {
      WaveIsEntryIds(c);
      EntriesDiffer(c.steps, StrippedTargets(c.steps));
    }
  }

  /** As soon as a list names a step, the first wave holds every step that no list names. */
  lemma FirstWaveHoldsRoots(c: Config, u: string, t: string, e: string)
    requires Closed(c) && Acyclic(GraphOf(c.steps)) && ProperIds(c.steps) && Follows(c, u, t)
    requires e in Lookup(c.steps) && NoParent(c, e)
    ensures e in FirstWave(c)
  {
    hide Lookup, Closed, Acyclic, StrippedTargets, EntriesAmong, FirstListed, InitialWave, FirstWave;
    LookupEmpty(c.steps);
    WaveIsEntryIds(c);
    TargetsAreNamed(c, t);
    EntryIsParentless(c, e);
  }

  lemma LastEdge(c: Config, a: string, d: nat, b: string)
    requires d >= 1 && Under(c, a, d, b)
    ensures !NoParent(c, b)
  {
    hide Follows;
    var p :| Descent(c, p, a, d, b);
    assert Follows(c, p[d - 1], p[d - 1 + 1]);
  }

  lemma FirstWaveSpread(c: Config)
    requires Clean(c) && ProperIds(c.steps)
    ensures Spread(c, FirstWave(c))
  {
    hide Lookup, Explicit, Closed, NoJoins, Acyclic, FirstWave, NoParent, Under, ProperIds;
    FirstWaveRoots(c);
    forall a, b, d: nat | a in FirstWave(c) && b in FirstWave(c) && d >= 1
      ensures !Under(c, a, d, b)
    {
      if Under(c, a, d, b) {
        LastEdge(c, a, d, b);
      }
    }
  }

  // ---------- gates ----------

  /** Two different steps of the first wave, or two different targets of one list. */
  ghost predicate SideBySide(c: Config, a: string, b: string) {
    a != b && ((a in FirstWave(c) && b in FirstWave(c)) || exists u :: SameList(c, u, a, b))
  }

  ghost predicate EquallyFar(c: Config, a: string, b: string, v: string, v': string) {
    exists d: nat :: Under(c, a, d, v) && Under(c, b, d, v')
  }

  /** Some gate and some step lie equally far below two steps that stand side by side. */
  ghost predicate GateBeside(c: Config) {
    exists a, b, g, v :: SideBySide(c, a, b) && GateCheck.IsGateId(Lookup(c.steps), g) && EquallyFar(c, a, b, g, v)
  }

  lemma AllReachable(c: Config, u: string, t: string)
    requires Clean(c) && ProperIds(c.steps) && Follows(c, u, t)
    ensures Reachable(c, FirstWave(c), u)
  {
    hide Lookup, Explicit, Closed, NoJoins, Acyclic, FirstWave, NoParent, Under, ProperIds, Follows;
    FollowsEdge(c, u, t);
    var e, m := BelowRoot(c, u);
    FirstWaveHoldsRoots(c, u, t, e);
  }

  lemma SiblingsIff(c: Config, v: string, v': string)
    requires Clean(c) && ProperIds(c.steps)
    ensures Siblings(c, FirstWave(c), v, v') <==> exists a, b :: SideBySide(c, a, b) && EquallyFar(c, a, b, v, v')
  {
    hide Clean, ProperIds, FirstWave, Under, ListOf, Reachable;
    var first := FirstWave(c);
    if Siblings(c, first, v, v') {
      var a, b, d: nat :| Parts(c, first, a, b, d, v, v');
      if !(a in first && b in first) {
        var u, ids :| Reachable(c, first, u) && ListOf(c, u, ids) && a in ids && b in ids;
        assert SameList(c, u, a, b);
      }
      assert SideBySide(c, a, b) && EquallyFar(c, a, b, v, v');
    }
    if a, b :| SideBySide(c, a, b) && EquallyFar(c, a, b, v, v') {
      var d: nat :| Under(c, a, d, v) && Under(c, b, d, v');
      if !(a in first && b in first) {
        var u :| SameList(c, u, a, b);
        SameListFollows(c, u, a, b);
        AllReachable(c, u, a);
        assert ShareList(c, first, a, b);
      }
      assert Parts(c, first, a, b, d, v, v');
    }
  }

  /** In a workflow without join points gates run alone, in every world, in runs from the runtime's first wave, exactly
      when no gate lies as far below one of two steps that stand side by side as some step lies below the other. */
  lemma GatesAloneIff(c: Config)
    requires Clean(c) && ProperIds(c.steps)
    ensures GatesAlone(c, FirstWave(c)) <==> !GateBeside(c)
  {
    hide Clean, ProperIds, FirstWave, GatesAlone, Siblings, SideBySide, EquallyFar, GateCheck.IsGateId;
    FirstWaveSpread(c);
    GatesAloneFromIff(c, FirstWave(c));
    if g, v :| GateCheck.IsGateId(Lookup(c.steps), g) && Siblings(c, FirstWave(c), g, v) {
      SiblingsIff(c, g, v);
      var a, b :| SideBySide(c, a, b) && EquallyFar(c, a, b, g, v);
      assert GateBeside(c);
    }
    if a, b, g, v :| SideBySide(c, a, b) && GateCheck.IsGateId(Lookup(c.steps), g) && EquallyFar(c, a, b, g, v) {
      SiblingsIff(c, g, v);
      assert GateBesideStep(c, FirstWave(c));
    }
  }

  // ---------- a gate among the entries ----------

  /** The gate A stands alone, and B goes on to C: nothing forks, but the runtime starts with A and B. */
  const GATE_AT_ENTRY := [
    GateStep("A", 1, Is([]), Is([])),
    PlainStep("B", 2, Is(["C"]), Is([])),
    PlainStep("C", 3, Is([]), Is([]))]

  lemma GateAtEntryLookup()
    ensures Lookup(GATE_AT_ENTRY) == map["A" := GATE_AT_ENTRY[0], "B" := GATE_AT_ENTRY[1], "C" := GATE_AT_ENTRY[2]]
    ensures StepIds(GATE_AT_ENTRY) == {"A", "B", "C"}
    ensures GateCheck.AllTargets(GATE_AT_ENTRY) == ["C"]
  {
    var s := GATE_AT_ENTRY;
    assert s[..2][..1] == s[..1] && s[..1][..0] == [];
    assert s[..2] == [s[0], s[1]] && s[..1] == [s[0]];
    assert Lookup(s[..1]) == map["A" := s[0]];
    assert Lookup(s[..2]) == map["A" := s[0], "B" := s[1]];
    assert StepIds(s[..1]) == {"A"};
    assert StepIds(s[..2]) == {"A", "B"};
    assert GateCheck.AllTargets(s[..1]) == [];
    assert GateCheck.AllTargets(s[..2]) == ["C"];
  }

  lemma GateAtEntryIds()
    ensures forall i :: 0 <= i < 3 ==> Validator.IdOk(GATE_AT_ENTRY[i], true)
    ensures !Blank("C") && Strip("A") == "A" && Strip("B") == "B" && Strip("C") == "C"
  {
    hide Strip, Blank;
    StripKeeps("A");
    StripKeeps("B");
    StripKeeps("C");
  }

  lemma GateAtEntryStepsOk()
    ensures forall i :: 0 <= i < 3 ==> Validator.StepOk(GATE_AT_ENTRY[i], {"A", "B", "C"}, {"approval"})
  {
    hide Blank, Strip;
    GateAtEntryIds();
    ApprovalIsTrimmed();
  }

  lemma GateAtEntryAcyclic()
    ensures Acyclic(GraphOf(GATE_AT_ENTRY))
  {
    GateAtEntryLookup();
    var rank: map<string, nat> := map["A" := 0, "B" := 1, "C" := 0];
    assert IsRank(GraphOf(GATE_AT_ENTRY), rank, 2);
    RankExcludesCycles(GraphOf(GATE_AT_ENTRY), rank, 2);
  }

  lemma GateAtEntryShapes()
    ensures Validator.AnyUses(GATE_AT_ENTRY) && UniqueIds(GATE_AT_ENTRY)
    ensures forall i :: 0 <= i < 3 ==> Validator.ShapeOk(GATE_AT_ENTRY[i], None)
  {
    assert Validator.UsesBranchesOrRetry(GATE_AT_ENTRY[0]);
  }

  lemma GateAtEntryLocallyOk()
    ensures Validator.LocallyOk(GATE_AT_ENTRY, None, {"approval"})
  {
    hide Lookup, StepIds, GateCheck.AllTargets, UniqueIds, Strip,
         Validator.StepOk, Validator.IdOk, Validator.ShapeOk, Validator.AnyUses;
    GateAtEntryLookup();
    GateAtEntryIds();
    GateAtEntryStepsOk();
    GateAtEntryShapes();
  }

  lemma GateAtEntryAccepted()
    ensures Validator.Accepted(GATE_AT_ENTRY, None, {"approval"})
  {
    hide Lookup, GraphOf, Acyclic, GateCheck.GateInFanOut, GateCheck.AllTargets, Validator.LocallyOk, StepIds;
    GateAtEntryLookup();
    GateAtEntryLocallyOk();
    GateAtEntryAcyclic();
    GateAtEntryNoFork();
    assert Validator.IsExit(GATE_AT_ENTRY[2]);
  }

  lemma GateAtEntryNoFork()
    ensures !GateCheck.GateInFanOut(GATE_AT_ENTRY, {"A", "B", "C"})
  {
    hide Lookup, GateCheck.Reached, GateCheck.JoinPoints;
    assert forall s :: s in GATE_AT_ENTRY ==> |s.SuccessIds()| < 2 && |s.ErrorIds()| < 2;
  }

  lemma GateAtEntryClosed()
    ensures Closed(Config(GATE_AT_ENTRY, 100)) && |Lookup(GATE_AT_ENTRY)| <= 100
  {
    hide Lookup, StepIds, GateCheck.AllTargets;
    GateAtEntryLookup();
  }

  lemma GateAtEntryProper()
    ensures ProperIds(GATE_AT_ENTRY) && Explicit(Config(GATE_AT_ENTRY, 100))
  {
    hide Strip, Blank;
    GateAtEntryIds();
    forall i | 0 <= i < 3
      ensures !Blank(GATE_AT_ENTRY[i].stepId)
    {
      assert Validator.IdOk(GATE_AT_ENTRY[i], true);
    }
  }

  lemma GateAtEntryClean()
    ensures Clean(Config(GATE_AT_ENTRY, 100)) && ProperIds(GATE_AT_ENTRY)
  {
    hide Lookup, Closed, Explicit, Acyclic, NoJoins, ProperIds;
    GateAtEntryClosed();
    GateAtEntryProper();
    GateAtEntryAcyclic();
    GateAtEntryLists();
  }

  lemma EntriesOfThree(targets: set<string>)
    requires "A" !in targets && "B" !in targets && "C" in targets
    ensures EntriesAmong(GATE_AT_ENTRY, targets) == ["A", "B"]
  {
    var s := GATE_AT_ENTRY;
    assert !IsSpace("A"[0]) && !IsSpace("B"[0]) && !Blank("A") && !Blank("B");
    assert s[..2][..1] == s[..1] && s[..1][..0] == [];
    assert EntriesAmong(s[..1], targets) == ["A"];
    assert EntriesAmong(s[..2], targets) == ["A", "B"];
  }

  lemma EntriesAre(c: Config, ids: seq<string>, named: string)
    requires Closed(c) && Acyclic(GraphOf(c.steps)) && ProperIds(c.steps) && c.steps != []
    requires !NoParent(c, named) && EntriesAmong(c.steps, StrippedTargets(c.steps)) == ids
    ensures InitialWave(c.steps, []) == Some(ids)
  {
    hide Lookup, Closed, Acyclic, StrippedTargets, EntriesAmong, FirstListed, InitialWave, FirstWave, NoParent;
    TargetsAreNamed(c, named);
    WaveIsEntryIds(c);
  }

  lemma GateAtEntryFirst()
    ensures InitialWave(GATE_AT_ENTRY, []) == Some(["A", "B"])
  {
    var c := Config(GATE_AT_ENTRY, 100);
    hide Strip, Blank, StrippedTargets, InitialWave, EntriesAmong, ProperIds, Explicit, Closed, NoJoins, Acyclic,
         Lookup, NoParent;
    GateAtEntryClean();
    GateAtEntryEdges();
    TargetsAreNamed(c, "C");
    TargetsAreNamed(c, "A");
    TargetsAreNamed(c, "B");
    EntriesOfThree(StrippedTargets(GATE_AT_ENTRY));
    EntriesAre(c, ["A", "B"], "C");
  }

  lemma GateAtEntryEdges()
    ensures var c := Config(GATE_AT_ENTRY, 100); NoParent(c, "A") && NoParent(c, "B") && !NoParent(c, "C")
  {
    hide Lookup;
    GateAtEntryLookup();
    assert Follows(Config(GATE_AT_ENTRY, 100), "B", "C");
  }

  lemma DispatchesFirst(c: Config, w: World, wave: seq<string>)
    requires |wave| >= 2 && |wave| <= c.maxTransitions && AllKnown(wave, Lookup(c.steps)) && !w.cancelled(0)
    ensures After(c, w, Start(wave), 1).dispatched == wave
  {
    hide Lookup, JoinPolicy, Dedup, FinishOrder, HasStatus, Single, NextStepIds, Finish, Collected;
    var r := Start(wave);
    assert After(c, w, r, 1) == WaveStep(c, w, After(c, w, r, 0)) == FanOut(c, w, r);
    assert FanOut(c, w, r).dispatched == [] + wave;
  }

  lemma GateAtEntryLists()
    ensures forall s :: s in GATE_AT_ENTRY ==> |s.SuccessIds()| < 2 && |s.ErrorIds()| < 2
    ensures NoJoins(Config(GATE_AT_ENTRY, 100))
  {
    hide Lookup, StepIds, GateCheck.AllTargets;
    GateAtEntryLookup();
    assert multiset(["C"])["C"] == 1;
  }

  lemma GateAtEntryDispatched(w: World)
    requires !w.cancelled(0)
    ensures GateCheck.IsGateId(Lookup(GATE_AT_ENTRY), "A")
    ensures After(Config(GATE_AT_ENTRY, 100), w, Start(["A", "B"]), 1).dispatched == ["A", "B"]
  {
    hide Lookup, After, StepIds, GateCheck.AllTargets;
    GateAtEntryLookup();
    DispatchesFirst(Config(GATE_AT_ENTRY, 100), w, ["A", "B"]);
  }

  /** An accepted workflow without join points, no list of which has two targets: its first wave dispatches the
      gate A beside B. */
  lemma GateAmongEntries(w: World)
    requires !w.cancelled(0)
    ensures Validator.Accepted(GATE_AT_ENTRY, None, {"approval"}) && NoJoins(Config(GATE_AT_ENTRY, 100))
    ensures forall s :: s in GATE_AT_ENTRY ==> |s.SuccessIds()| < 2 && |s.ErrorIds()| < 2
    ensures InitialWave(GATE_AT_ENTRY, []) == Some(["A", "B"]) && GateCheck.IsGateId(Lookup(GATE_AT_ENTRY), "A")
    ensures After(Config(GATE_AT_ENTRY, 100), w, Start(["A", "B"]), 1).dispatched == ["A", "B"]
  {
    hide Lookup, NoJoins, Explicit, Closed, Acyclic, After, Validator.Accepted, InitialWave, GateCheck.IsGateId;
    GateAtEntryAccepted();
    GateAtEntryLists();
    GateAtEntryFirst();
    GateAtEntryDispatched(w);
  }
}
