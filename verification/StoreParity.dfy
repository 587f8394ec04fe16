/** What the normalised form of a workflow has in common with the original, and what the runtime
    does differently on it. */
module StoreParity {
  import opened Digraph
  import opened Workflow
  import opened Routing
  import opened DefinitionStore
  import opened StoreRoundTrip
  import opened GraphParity
  import Validator
  import GateCheck

  /** Facts about the steps of a round trip, found by id. */
  lemma BackStep(doc: seq<Step>, back: seq<Step>, u: string)
    requires RoundTripped(doc, back) && u in StepIds(doc)
    ensures u in Lookup(doc) && u in Lookup(back)
    ensures ReadBack(doc, Lookup(doc)[u], Lookup(back)[u])
  {
    hide ReadBack, UniqueIds, StepIds;
    LookupSound(back);
    LookupSound(doc);
    var i :| 0 <= i < |back| && back[i] == Lookup(back)[u];
    assert ReadBack(doc, Lookup(doc)[back[i].stepId], back[i]);
  }

  // ---------- the cycle check ----------

  lemma BackNeighbors(doc: seq<Step>, back: seq<Step>, u: string)
    requires RoundTripped(doc, back)
    ensures Out(GraphOf(back), u) == Out(GraphOf(doc), u) * StepIds(doc)
  {
    hide UniqueIds, StepIds, Lookup, NoDup, StepFor, RowFor;
    LookupSound(doc);
    LookupSound(back);
    StepIdsMember(doc, "");
    if u in StepIds(doc) {
      BackStep(doc, back, u);
      hide RoundTripped;
      var s, t := Lookup(doc)[u], Lookup(back)[u];
      assert forall v :: v in t.SuccessIds() + t.ErrorIds() <==>
        v in s.SuccessIds() + s.ErrorIds() && v in StepIds(doc);
    }
  }

  lemma CycleStaysInSteps(doc: seq<Step>, back: seq<Step>, p: seq<string>)
    requires RoundTripped(doc, back) && IsCycle(GraphOf(doc), p)
    ensures IsCycle(GraphOf(back), p)
  {
    hide GraphOf, RoundTripped, StepIds;
    forall i | 0 <= i < |p| - 1
      ensures p[i + 1] in Out(GraphOf(back), p[i])
    {
      assert p[i + 1] in Out(GraphOf(doc), p[i]);
      BackNeighbors(doc, back, p[i]);
      var next := if i + 1 < |p| - 1 then i + 1 else 0;
      assert p[next + 1] in Out(GraphOf(doc), p[next]);
      KeysAreSteps(doc, p[next], p[next + 1]);
    }
  }

  lemma KeysAreSteps(doc: seq<Step>, u: string, v: string)
    requires v in Out(GraphOf(doc), u)
    ensures u in StepIds(doc)
  {
    LookupSound(doc);
  }

  /** The cycle check gives both forms the same verdict, dangling targets or not. */
  lemma SameCycleVerdict(doc: seq<Step>, back: seq<Step>)
    requires RoundTripped(doc, back)
    ensures Acyclic(GraphOf(doc)) <==> Acyclic(GraphOf(back))
  {
    if Acyclic(GraphOf(doc)) {
      forall u | u in GraphOf(back)
        ensures GraphOf(back)[u] <= Out(GraphOf(doc), u)
      {
        BackNeighbors(doc, back, u);
      }
      SubgraphAcyclic(GraphOf(doc), GraphOf(back));
    } else {
      var p :| IsCycle(GraphOf(doc), p);
      CycleStaysInSteps(doc, back, p);
    }
  }

  // ---------- the gate check ----------

  /** Every branch target names a step. */
  ghost predicate NoDangling(doc: seq<Step>) {
    forall i, v :: 0 <= i < |doc| && v in doc[i].SuccessIds() + doc[i].ErrorIds() ==> v in StepIds(doc)
  }

  ghost predicate NoRepeats(doc: seq<Step>) {
    forall i :: 0 <= i < |doc| ==> NoDup(doc[i].SuccessIds()) && NoDup(doc[i].ErrorIds())
  }

  lemma BackIsSameStep(doc: seq<Step>, back: seq<Step>, u: string)
    requires RoundTripped(doc, back) && NoDangling(doc) && NoRepeats(doc) && u in StepIds(doc)
    ensures u in Lookup(doc) && u in Lookup(back) && SameStep(Lookup(doc)[u], Lookup(back)[u])
  {
    hide UniqueIds, StepIds, Lookup, NoDup;
    BackStep(doc, back, u);
    hide RoundTripped;
    LookupSound(doc);
    var i :| 0 <= i < |doc| && doc[i] == Lookup(doc)[u];
  }

  lemma RoundTripSameGraph(doc: seq<Step>, back: seq<Step>)
    requires RoundTripped(doc, back) && AllNamed(doc) && NoDangling(doc) && NoRepeats(doc)
    ensures SameGraph(doc, back)
  {
    hide UniqueIds, StepIds, SameStep, ReadBack, NoDangling, NoRepeats;
    LookupSound(doc);
    LookupSound(back);
    forall i | 0 <= i < |back|
      ensures back[i].stepId != ""
    {
      assert back[i].stepId in Lookup(doc);
    }
    hide Lookup;
    forall u | u in Lookup(doc)
      ensures SameStep(Lookup(doc)[u], Lookup(back)[u])
    {
      BackIsSameStep(doc, back, u);
    }
  }

  /** The gate check gives both forms the same verdict when every target names a step. */
  lemma SameGateVerdictBack(doc: seq<Step>, back: seq<Step>)
    requires RoundTripped(doc, back) && AllNamed(doc) && NoDangling(doc) && NoRepeats(doc)
    ensures GateCheck.GateInFanOut(doc, StepIds(doc)) <==> GateCheck.GateInFanOut(back, StepIds(back))
  {
    RoundTripSameGraph(doc, back);
    SameGateVerdict(doc, back);
  }

  /** A goes on to the gate G and to a step that does not exist. */
  const DANGLING := [
    PlainStep("A", 1, Is(["G", "x"]), Is([])),
    PlainStep("G", 2, Is([]), Is([])).(stepType := Some("gate"))]

  /** What the tables give back: A goes on to G alone. */
  const DANGLING_LOST := [
    PlainStep("A", 1, Is(["G"]), Missing).(stepType := Some("platform")),
    PlainStep("G", 2, Missing, Missing).(stepType := Some("gate"))]

  lemma DanglingLookups()
    ensures Lookup(DANGLING) == map["A" := DANGLING[0], "G" := DANGLING[1]] && StepIds(DANGLING) == {"A", "G"}
    ensures Lookup(DANGLING_LOST) == map["A" := DANGLING_LOST[0], "G" := DANGLING_LOST[1]]
      && StepIds(DANGLING_LOST) == {"A", "G"}
    ensures UniqueIds(DANGLING) && UniqueIds(DANGLING_LOST)
  {
    hide Lookup, StepIds, UniqueIds;
    LookupPair(DANGLING[0], DANGLING[1]);
    LookupPair(DANGLING_LOST[0], DANGLING_LOST[1]);
  }

  lemma DanglingRoundTrip()
    ensures RoundTripped(DANGLING, DANGLING_LOST)
  {
    hide Lookup, StepIds, UniqueIds;
    DanglingLookups();
    assert ReadBack(DANGLING, DANGLING[0], DANGLING_LOST[0]);
    assert ReadBack(DANGLING, DANGLING[1], DANGLING_LOST[1]);
  }

  lemma DanglingWritable()
    ensures Writable(DANGLING, {1})
  {
    hide Lookup, StepIds, UniqueIds;
    DanglingLookups();
    var ids := ["G", "x"];
    assert ids[..1] == ["G"] && ["G"][..0] == [];
    assert Known(["G"], Lookup(DANGLING)) == ["G"];
    assert Known(ids, Lookup(DANGLING)) == ["G"];
  }

  lemma DanglingRejected()
    ensures GateCheck.GateInFanOut(DANGLING, StepIds(DANGLING))
  {
    hide Lookup, StepIds, GateCheck.Reached, GateCheck.AllTargets;
    DanglingLookups();
    DanglingTargets();
    var joins := GateCheck.JoinPoints(DANGLING, StepIds(DANGLING));
    assert "G" !in joins;
    GateCheck.ReachedStart(Lookup(DANGLING), joins, ["G", "x"], "G");
    assert GateCheck.BranchHasGate(Lookup(DANGLING), joins, DANGLING[0].SuccessIds());
  }

  lemma DanglingLostPasses()
    ensures !GateCheck.GateInFanOut(DANGLING_LOST, StepIds(DANGLING_LOST))
  {
    hide Lookup, StepIds, GateCheck.Reached, GateCheck.JoinPoints;
    assert forall s :: s in DANGLING_LOST ==> |s.SuccessIds()| < 2 && |s.ErrorIds()| < 2;
  }

  /** With a dangling target the gate check can reject a list and accept what is read back. */
  lemma DanglingChangesGateVerdict()
    ensures Writable(DANGLING, {1}) && RoundTripped(DANGLING, DANGLING_LOST)
    ensures GateCheck.GateInFanOut(DANGLING, StepIds(DANGLING))
    ensures !GateCheck.GateInFanOut(DANGLING_LOST, StepIds(DANGLING_LOST))
  {
    hide Lookup, StepIds, RoundTripped, GateCheck.GateInFanOut, Writable;
    DanglingWritable();
    DanglingRoundTrip();
    DanglingRejected();
    DanglingLostPasses();
  }

  lemma DanglingTargets()
    ensures multiset(GateCheck.AllTargets(DANGLING))["G"] == 1
  {
    var d := DANGLING;
    assert d[..1] == [d[0]] && [d[0]][..0] == [];
    assert GateCheck.AllTargets([d[0]]) == ["G", "x"];
    assert GateCheck.AllTargets(d) == ["G", "x"];
  }

  /** What is read back has lost every present but empty list, and with them every exit point: as soon as a
      step has a branch list or a retry field, validation rejects it. */
  lemma BackRejected(doc: seq<Step>, back: seq<Step>, actionId: Option<int>, registry: set<string>)
    requires RoundTripped(doc, back) && Validator.AnyUses(back)
    ensures !Validator.Accepted(Validator.AllWithDefaults(back), actionId, registry)
  {
    hide StepIds, Lookup, Validator.LocallyOk, SameTargets, GateCheck.GateInFanOut;
    var again := Validator.AllWithDefaults(back);
    var k :| 0 <= k < |back| && Validator.UsesBranchesOrRetry(back[k]);
    assert Validator.UsesBranchesOrRetry(again[k]);
    forall i | 0 <= i < |again|
      ensures !Validator.IsExit(again[i])
    {
      NoExitBack(doc, back[i]);
    }
  }

  /** So validation accepts what is read back exactly when no step has a branch list or a retry field and each step
      obeys the local rules. */
  lemma BackAcceptedIff(doc: seq<Step>, back: seq<Step>, actionId: Option<int>, registry: set<string>)
    requires RoundTripped(doc, back)
    ensures Validator.Accepted(Validator.AllWithDefaults(back), actionId, registry) <==>
      back == [] || (!Validator.AnyUses(back) && Validator.LocallyOk(back, actionId, registry))
  {
    hide RoundTripped, Validator.LocallyOk, Validator.GloballyOk;
    var again := Validator.AllWithDefaults(back);
    if Validator.AnyUses(back) {
      BackRejected(doc, back, actionId, registry);
    } else {
      assert forall i :: 0 <= i < |back| ==> !Validator.UsesBranchesOrRetry(back[i]) && again[i] == back[i];
      assert again == back;
    }
  }

  lemma NoExitBack(doc: seq<Step>, t: Step)
    requires exists s :: ReadBack(doc, s, t)
    ensures !Validator.IsExit(Validator.WithDefaults(t))
  {
    hide StepIds, SameTargets;
  }

  // ---------- a second round trip ----------

  /** Equal but for the order of the branch lists. */
  ghost predicate SameButForOrder(s: Step, t: Step) {
    && t == s.(onSuccess := t.onSuccess, onError := t.onError)
    && (s.onSuccess.Is? <==> t.onSuccess.Is?) && s.onSuccess != Null && t.onSuccess != Null
    && (s.onError.Is? <==> t.onError.Is?) && s.onError != Null && t.onError != Null
    && SameList(s.SuccessIds(), t.SuccessIds()) && SameList(s.ErrorIds(), t.ErrorIds())
  }

  lemma BackTargets(doc: seq<Step>, back: seq<Step>, u: string, v: string)
    requires RoundTripped(doc, back) && u in Lookup(back)
    requires v in Lookup(back)[u].SuccessIds() || v in Lookup(back)[u].ErrorIds()
    ensures v in StepIds(back)
  {
    hide UniqueIds, StepIds, Lookup, StepFor, RowFor, NoDup;
    LookupSound(back);
    BackStep(doc, back, u);
  }

  /** Writing what was read and reading it again changes nothing. */
  lemma SecondRoundTripChangesNothing(doc: seq<Step>, back: seq<Step>, again: seq<Step>, u: string)
    requires RoundTripped(doc, back) && RoundTripped(back, again) && u in StepIds(doc)
    ensures StepIds(again) == StepIds(back) && u in Lookup(back) && u in Lookup(again)
    ensures SameButForOrder(Lookup(back)[u], Lookup(again)[u])
  {
    BackStep(doc, back, u);
    BackStep(back, again, u);
    forall v | v in Lookup(back)[u].SuccessIds() || v in Lookup(back)[u].ErrorIds()
      ensures v in StepIds(back)
    {
      BackTargets(doc, back, u, v);
    }
    hide Lookup, StepIds, UniqueIds, RoundTripped, NoDup;
    ReadBackTwice(doc, back, Lookup(doc)[u], Lookup(back)[u], Lookup(again)[u]);
  }

  lemma ReadBackTwice(doc: seq<Step>, back: seq<Step>, s: Step, t: Step, r: Step)
    requires ReadBack(doc, s, t) && ReadBack(back, t, r)
    requires forall v :: v in t.SuccessIds() || v in t.ErrorIds() ==> v in StepIds(back)
    ensures SameButForOrder(t, r)
  {
    hide StepIds, NoDup;
    EmptyLists(t.SuccessIds(), r.SuccessIds());
    EmptyLists(t.ErrorIds(), r.ErrorIds());
  }

  lemma EmptyLists(a: seq<string>, b: seq<string>)
    requires forall v :: v in a <==> v in b
    ensures a == [] <==> b == []
  {
    if a != [] {
      assert a[0] in b;
    }
    if b != [] {
      assert b[0] in a;
    }
  }

  // ---------- written, read, written and read again ----------

  lemma {:induction false} KnownNoDup(ids: seq<string>, lookup: map<string, Step>)
    requires NoDup(ids)
    ensures NoDup(Known(ids, lookup))
  {
    if ids != [] {
      var init := ids[..|ids| - 1];
      KnownNoDup(init, lookup);
      KnownMember(init, lookup, ids[|ids| - 1]);
      assert ids == init + [ids[|ids| - 1]];
    }
  }

  lemma ReadBackRowOk(doc: seq<Step>, s: Step, t: Step, actions: set<int>)
    requires ReadBack(doc, s, t) && RowOk(s, actions)
    ensures RowOk(t, actions) && NoDup(t.SuccessIds()) && NoDup(t.ErrorIds())
  {
    hide StepIds, NoDup;
  }

  /** What the tables give back they can hold again. */
  lemma BackWritable(doc: seq<Step>, back: seq<Step>, actions: set<int>)
    requires Writable(doc, actions) && RoundTripped(doc, back)
    ensures Writable(back, actions)
  {
    hide StepIds, Lookup, NoDup, Known, ReadBack, RowOk;
    LookupSound(doc);
    forall i | 0 <= i < |back|
      ensures RowOk(back[i], actions)
      ensures NoDup(Known(back[i].SuccessIds(), Lookup(back))) && NoDup(Known(back[i].ErrorIds(), Lookup(back)))
    {
      var s := Lookup(doc)[back[i].stepId];
      ReadBackRowOk(doc, s, back[i], actions);
      KnownNoDup(back[i].SuccessIds(), Lookup(back));
      KnownNoDup(back[i].ErrorIds(), Lookup(back));
    }
  }

  method WriteAndRead(t: DefinitionTables, action: int, doc: seq<Step>) returns (ok: bool, back: seq<Step>)
    requires t.Valid()
    modifies t
    ensures t.Valid() && t.actions == old(t.actions)
    ensures ok <==> doc == [] || Writable(doc, t.actions)
    ensures ok ==> if doc == [] then back == [] else RoundTripped(doc, back)
  {
    hide Writable, Written, ReadsAll, RoundTripped;
    ghost var steps0, edges0 := t.steps, t.edges;
    ok := t.SyncFromJson(action, doc);
    ghost var rowIds;
    back, rowIds := t.GetStepsFromNormalized(action);
    if ok && doc != [] {
      var d := t.definitions[action].id;
      ghost var base :| (forall i :: i in steps0 ==> i < base)
        && Written(steps0, edges0, d, doc, base, t.steps, t.edges);
      WritableIsUnique(doc, t.actions);
      WriteThenRead(d, doc, base, t.steps, t.edges, back, rowIds);
    }
  }

  lemma WritableIsUnique(doc: seq<Step>, actions: set<int>)
    requires Writable(doc, actions)
    ensures UniqueIds(doc)
  {
  }

  /** The same steps, but for the order of their branch lists. */
  ghost predicate SameSteps(a: seq<Step>, b: seq<Step>) {
    && StepIds(a) == StepIds(b)
    && forall u :: u in StepIds(a) ==> u in Lookup(a) && u in Lookup(b) && SameButForOrder(Lookup(a)[u], Lookup(b)[u])
  }

  /** Whenever the first write succeeds so does the second, and the second reading says what the first did. */
  method WriteAndReadTwice(t: DefinitionTables, action: int, doc: seq<Step>)
    returns (ok: bool, back: seq<Step>, again: seq<Step>)
    requires t.Valid()
    modifies t
    ensures t.Valid() && (ok <==> doc == [] || Writable(doc, old(t.actions)))
    ensures ok ==> SameSteps(back, again)
  {
    hide Writable, RoundTripped, StepIds, Lookup, SameButForOrder;
    ok, back := WriteAndRead(t, action, doc);
    if !ok {
      return false, back, back;
    }
    if doc != [] {
      BackWritable(doc, back, t.actions);
    }
    var written;
    written, again := WriteAndRead(t, action, back);
    if back != [] {
      BackIds(doc, back);
      forall u | u in StepIds(back)
        ensures u in Lookup(back) && u in Lookup(again) && SameButForOrder(Lookup(back)[u], Lookup(again)[u])
      {
        SecondRoundTripChangesNothing(doc, back, again, u);
      }
      BackIds(back, again);
    } else {
      NoStepIds();
    }
  }

  lemma BackIds(doc: seq<Step>, back: seq<Step>)
    requires RoundTripped(doc, back)
    ensures StepIds(back) == StepIds(doc)
  {
  }

  lemma NoStepIds()
    ensures StepIds([]) == {}
  {
  }
}
