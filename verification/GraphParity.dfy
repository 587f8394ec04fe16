/** Two step lists with the same ids, the same branch lists up to order and the same gates
    get the same verdicts from the gate check. */
module GraphParity {
  import opened Workflow
  import opened Routing
  import opened GateCheck

  ghost predicate SameList(a: seq<string>, b: seq<string>) {
    NoDup(a) && NoDup(b) && forall v :: v in a <==> v in b
  }

  ghost predicate AllNamed(steps: seq<Step>) {
    UniqueIds(steps) && forall i :: 0 <= i < |steps| ==> steps[i].stepId != ""
  }

  ghost predicate SameStep(s: Step, t: Step) {
    SameList(s.SuccessIds(), t.SuccessIds()) && SameList(s.ErrorIds(), t.ErrorIds()) && s.IsGate() == t.IsGate()
  }

  ghost predicate SameGraph(a: seq<Step>, b: seq<Step>) {
    && AllNamed(a) && AllNamed(b) && StepIds(a) == StepIds(b) == Lookup(a).Keys == Lookup(b).Keys
    && forall u :: u in Lookup(a) ==> SameStep(Lookup(a)[u], Lookup(b)[u])
  }

  lemma SameListLength(a: seq<string>, b: seq<string>)
    requires SameList(a, b)
    ensures |a| == |b|
  {
    ListSize(a);
    ListSize(b);
    assert (set v | v in a) == (set v | v in b);
  }

  lemma {:induction false} ListSize(a: seq<string>)
    requires NoDup(a)
    ensures |set v | v in a| == |a|
  {
    if a != [] {
      var init, last := a[..|a| - 1], a[|a| - 1];
      ListSize(init);
      assert a == init + [last];
      assert (set v | v in a) == (set v | v in init) + {last};
    }
  }

  // ---------- in-degrees ----------

  /** The steps whose success list names id. */
  function SuccessMentions(steps: seq<Step>, id: string): set<string> {
    if steps == [] then {} else
      SuccessMentions(steps[..|steps| - 1], id) +
        if id in steps[|steps| - 1].SuccessIds() then {steps[|steps| - 1].stepId} else {}
  }

  function ErrorMentions(steps: seq<Step>, id: string): set<string> {
    if steps == [] then {} else
      ErrorMentions(steps[..|steps| - 1], id) +
        if id in steps[|steps| - 1].ErrorIds() then {steps[|steps| - 1].stepId} else {}
  }

  lemma {:induction false} MentionsMember(steps: seq<Step>, id: string, u: string)
    requires AllNamed(steps)
    ensures u in SuccessMentions(steps, id) <==> u in Lookup(steps) && id in Lookup(steps)[u].SuccessIds()
    ensures u in ErrorMentions(steps, id) <==> u in Lookup(steps) && id in Lookup(steps)[u].ErrorIds()
  {
    if steps != [] {
      var init, last := steps[..|steps| - 1], steps[|steps| - 1];
      assert steps == init + [last];
      UniqueSnoc(init, last);
      LookupSound(init);
      MentionsMember(init, id, u);
      MentionsMember(init, id, last.stepId);
    }
  }

  lemma {:induction false} NoDupCount(a: seq<string>, id: string)
    requires NoDup(a)
    ensures multiset(a)[id] == if id in a then 1 else 0
  {
    if a != [] {
      var init, last := a[..|a| - 1], a[|a| - 1];
      NoDupCount(init, id);
      assert a == init + [last];
    }
  }

  /** With unique ids and no repeated targets the in-degree counts mentioning lists. */
  lemma {:induction false} InDegreeCountsMentions(steps: seq<Step>, id: string)
    requires AllNamed(steps)
    requires forall i :: 0 <= i < |steps| ==> NoDup(steps[i].SuccessIds()) && NoDup(steps[i].ErrorIds())
    ensures InDegree(steps, id) == |SuccessMentions(steps, id)| + |ErrorMentions(steps, id)|
  {
    hide NoDup;
    if steps != [] {
      var init, last := steps[..|steps| - 1], steps[|steps| - 1];
      assert steps == init + [last];
      UniqueSnoc(init, last);
      InDegreeCountsMentions(init, id);
      NoDupCount(last.SuccessIds(), id);
      NoDupCount(last.ErrorIds(), id);
      LookupSound(init);
      MentionsMember(init, id, last.stepId);
    }
  }

  lemma SameInDegree(a: seq<Step>, b: seq<Step>, id: string)
    requires SameGraph(a, b)
    ensures InDegree(a, id) == InDegree(b, id)
  {
    hide InDegree, SuccessMentions, ErrorMentions, UniqueIds, NoDup;
    ListsHaveNoDup(a, b);
    InDegreeCountsMentions(a, id);
    InDegreeCountsMentions(b, id);
    forall u
      ensures u in SuccessMentions(a, id) <==> u in SuccessMentions(b, id)
      ensures u in ErrorMentions(a, id) <==> u in ErrorMentions(b, id)
    {
      MentionsMember(a, id, u);
      MentionsMember(b, id, u);
      if u in Lookup(a) {
        assert SameStep(Lookup(a)[u], Lookup(b)[u]);
      }
    }
    assert SuccessMentions(a, id) == SuccessMentions(b, id);
    assert ErrorMentions(a, id) == ErrorMentions(b, id);
  }

  lemma ListsHaveNoDup(a: seq<Step>, b: seq<Step>)
    requires SameGraph(a, b)
    ensures forall i :: 0 <= i < |a| ==> NoDup(a[i].SuccessIds()) && NoDup(a[i].ErrorIds())
    ensures forall i :: 0 <= i < |b| ==> NoDup(b[i].SuccessIds()) && NoDup(b[i].ErrorIds())
  {
    hide NoDup, UniqueIds;
    forall i | 0 <= i < |a|
      ensures NoDup(a[i].SuccessIds()) && NoDup(a[i].ErrorIds())
    {
      LookupUnique(a, i);
      assert SameStep(Lookup(a)[a[i].stepId], Lookup(b)[a[i].stepId]);
    }
    forall i | 0 <= i < |b|
      ensures NoDup(b[i].SuccessIds()) && NoDup(b[i].ErrorIds())
    {
      LookupUnique(b, i);
      assert SameStep(Lookup(a)[b[i].stepId], Lookup(b)[b[i].stepId]);
    }
  }

  // ---------- the gate check ----------

  lemma SameReached(m: map<string, Step>, n: map<string, Step>, joins: set<string>, ids: seq<string>,
                    jds: seq<string>, v: string)
    requires forall u, x :: x in Next(m, u) ==> x in Next(n, u)
    requires forall x :: x in ids ==> x in jds
    requires Reached(m, joins, ids, v)
    ensures Reached(n, joins, jds, v)
  {
    var p :| BranchPath(m, joins, ids, p) && p[|p| - 1] == v;
    assert BranchPath(n, joins, jds, p);
  }

  lemma SameBranchHasGate(m: map<string, Step>, n: map<string, Step>, joins: set<string>, ids: seq<string>,
                          jds: seq<string>)
    requires forall u, x :: x in Next(m, u) ==> x in Next(n, u)
    requires forall u :: IsGateId(m, u) ==> IsGateId(n, u)
    requires SameList(ids, jds) && BranchHasGate(m, joins, ids)
    ensures BranchHasGate(n, joins, jds)
  {
    hide Next, IsGateId, Reached;
    SameListLength(ids, jds);
    var g :| IsGateId(m, g) && Reached(m, joins, ids, g);
    SameReached(m, n, joins, ids, jds, g);
  }

  lemma SameNext(a: seq<Step>, b: seq<Step>)
    requires SameGraph(a, b)
    ensures forall u, x :: x in Next(Lookup(a), u) ==> x in Next(Lookup(b), u)
    ensures forall u :: IsGateId(Lookup(a), u) ==> IsGateId(Lookup(b), u)
  {
    hide Lookup, StepIds, UniqueIds, NoDup;
  }

  lemma SameGraphSymmetric(a: seq<Step>, b: seq<Step>)
    requires SameGraph(a, b)
    ensures SameGraph(b, a)
  {
    hide Lookup, StepIds, UniqueIds, NoDup;
  }

  lemma GateVerdictOneWay(a: seq<Step>, b: seq<Step>)
    requires SameGraph(a, b) && GateInFanOut(a, StepIds(a))
    ensures GateInFanOut(b, StepIds(b))
  {
    hide Lookup, StepIds, UniqueIds, NoDup, InDegree, BranchHasGate, Next, IsGateId;
    SameNext(a, b);
    forall id
      ensures InDegree(a, id) == InDegree(b, id)
    {
      SameInDegree(a, b, id);
    }
    var joins := JoinPoints(a, StepIds(a));
    assert joins == JoinPoints(b, StepIds(b));
    var s :| s in a && (BranchHasGate(Lookup(a), joins, s.SuccessIds())
      || BranchHasGate(Lookup(a), joins, s.ErrorIds()));
    var i :| 0 <= i < |a| && a[i] == s;
    LookupUnique(a, i);
    LookupSound(b);
    var t := Lookup(b)[s.stepId];
    assert SameStep(s, t);
    if BranchHasGate(Lookup(a), joins, s.SuccessIds()) {
      SameBranchHasGate(Lookup(a), Lookup(b), joins, s.SuccessIds(), t.SuccessIds());
    } else {
      SameBranchHasGate(Lookup(a), Lookup(b), joins, s.ErrorIds(), t.ErrorIds());
    }
  }

  lemma SameGateVerdict(a: seq<Step>, b: seq<Step>)
    requires SameGraph(a, b)
    ensures GateInFanOut(a, StepIds(a)) <==> GateInFanOut(b, StepIds(b))
  {
    hide GateInFanOut, SameGraph;
    SameGraphSymmetric(a, b);
    if GateInFanOut(a, StepIds(a)) {
      GateVerdictOneWay(a, b);
    }
    if GateInFanOut(b, StepIds(b)) {
      GateVerdictOneWay(b, a);
    }
  }
}
