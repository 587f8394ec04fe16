/** What the gate check says of a list that has been through the tables, for every list they can hold:
    the same as of the list cut down to what the tables keep of its graph. */
module StoreGateVerdict {
  import opened Workflow
  import opened Routing
  import opened DefinitionStore
  import opened StoreRoundTrip
  import opened GraphParity
  import opened StoreParity
  import opened GateCheck

  // ---------- the cut list ----------

  function CutField(ids: Field<seq<string>>, lookup: map<string, Step>): Field<seq<string>> {
    if ids.Is? then Is(Known(ids.value, lookup)) else ids
  }

  function CutStep(s: Step, lookup: map<string, Step>): Step {
    s.(onSuccess := CutField(s.onSuccess, lookup), onError := CutField(s.onError, lookup))
  }

  /** The steps that have an id, their branch lists without targets that name no step. */
  function CutTo(doc: seq<Step>, lookup: map<string, Step>): seq<Step> {
    if doc == [] then [] else
      var last := doc[|doc| - 1];
      CutTo(doc[..|doc| - 1], lookup) + if last.stepId == "" then [] else [CutStep(last, lookup)]
  }

  function Cut(doc: seq<Step>): seq<Step> {
    CutTo(doc, Lookup(doc))
  }

  lemma CutLists(s: Step, lookup: map<string, Step>)
    ensures CutStep(s, lookup).SuccessIds() == Known(s.SuccessIds(), lookup)
    ensures CutStep(s, lookup).ErrorIds() == Known(s.ErrorIds(), lookup)
  {
  }

  lemma CutKeepsId(s: Step, lookup: map<string, Step>)
    ensures CutStep(s, lookup).stepId == s.stepId
  {
  }

  lemma {:induction false} CutLookup(doc: seq<Step>, lookup: map<string, Step>)
    ensures Lookup(CutTo(doc, lookup)).Keys == Lookup(doc).Keys
    ensures forall u :: u in Lookup(doc) ==> Lookup(CutTo(doc, lookup))[u] == CutStep(Lookup(doc)[u], lookup)
  {
    hide CutStep;
    if doc != [] {
      var n := |doc| - 1;
      CutLookup(doc[..n], lookup);
      CutKeepsId(doc[n], lookup);
      var init := CutTo(doc[..n], lookup);
      if doc[n].stepId == "" {
        assert CutTo(doc, lookup) == init;
      } else {
        assert (init + [CutStep(doc[n], lookup)])[..|init|] == init;
      }
    }
  }

  lemma {:induction false} CutNamed(doc: seq<Step>, lookup: map<string, Step>)
    ensures StepIds(CutTo(doc, lookup)) == StepIds(doc)
    ensures UniqueIds(doc) ==> AllNamed(CutTo(doc, lookup))
  {
    hide CutStep, UniqueIds, AllNamed, StepIds;
    NothingNamed();
    if doc != [] {
      var n := |doc| - 1;
      CutNamed(doc[..n], lookup);
      CutKeepsId(doc[n], lookup);
      var init := CutTo(doc[..n], lookup);
      assert doc == doc[..n] + [doc[n]];
      UniqueSnoc(doc[..n], doc[n]);
      if doc[n].stepId == "" {
        assert CutTo(doc, lookup) == init;
      } else {
        NamedSnoc(init, CutStep(doc[n], lookup));
      }
    }
  }

  lemma NamedSnoc(steps: seq<Step>, s: Step)
    requires s.stepId != ""
    ensures StepIds(steps + [s]) == StepIds(steps) + {s.stepId}
    ensures AllNamed(steps) && s.stepId !in StepIds(steps) ==> AllNamed(steps + [s])
  {
    hide StepIds, UniqueIds;
    UniqueSnoc(steps, s);
  }

  lemma NothingNamed()
    ensures AllNamed([]) && StepIds([]) == {}
  {
  }

  lemma CutFacts(doc: seq<Step>, lookup: map<string, Step>)
    ensures var cut := CutTo(doc, lookup);
            && StepIds(cut) == StepIds(doc) && Lookup(cut).Keys == Lookup(doc).Keys
            && (forall u :: u in Lookup(doc) ==> Lookup(cut)[u] == CutStep(Lookup(doc)[u], lookup))
            && (UniqueIds(doc) ==> AllNamed(cut))
  {
    CutLookup(doc, lookup);
    CutNamed(doc, lookup);
  }

  lemma {:induction false} CutMember(doc: seq<Step>, lookup: map<string, Step>, i: nat)
    requires i < |CutTo(doc, lookup)|
    ensures exists k :: 0 <= k < |doc| && doc[k].stepId != "" && CutTo(doc, lookup)[i] == CutStep(doc[k], lookup)
  {
    hide CutStep;
    var n := |doc| - 1;
    if i < |CutTo(doc[..n], lookup)| {
      CutMember(doc[..n], lookup, i);
    }
  }

  lemma {:induction false} MemberCut(doc: seq<Step>, lookup: map<string, Step>, k: nat)
    requires k < |doc| && doc[k].stepId != ""
    ensures CutStep(doc[k], lookup) in CutTo(doc, lookup)
  {
    hide CutStep;
    if k < |doc| - 1 {
      MemberCut(doc[..|doc| - 1], lookup, k);
    }
  }

  // ---------- the cut list has been through the tables as well ----------

  lemma CutReadBack(doc: seq<Step>, s: Step, t: Step)
    requires ReadBack(doc, s, t)
    ensures ReadBack(Cut(doc), CutStep(s, Lookup(doc)), t)
  {
    hide StepIds, NoDup, Lookup, Known, CutTo;
    var lookup := Lookup(doc);
    CutFacts(doc, lookup);
    CutLists(s, lookup);
    LookupSound(doc);
    forall v
      ensures v in Known(s.SuccessIds(), lookup) <==> v in s.SuccessIds() && v in StepIds(doc)
      ensures v in Known(s.ErrorIds(), lookup) <==> v in s.ErrorIds() && v in StepIds(doc)
    {
      KnownMember(s.SuccessIds(), lookup, v);
      KnownMember(s.ErrorIds(), lookup, v);
    }
  }

  lemma CutRoundTripped(doc: seq<Step>, back: seq<Step>)
    requires RoundTripped(doc, back)
    ensures RoundTripped(Cut(doc), back)
  {
    hide StepIds, Lookup, ReadBack, UniqueIds, CutTo, CutStep;
    CutFacts(doc, Lookup(doc));
    forall i | 0 <= i < |back|
      ensures back[i].stepId in Lookup(Cut(doc)) && ReadBack(Cut(doc), Lookup(Cut(doc))[back[i].stepId], back[i])
    {
      CutReadBack(doc, Lookup(doc)[back[i].stepId], back[i]);
    }
  }

  lemma CutClean(doc: seq<Step>, actions: set<int>)
    requires Writable(doc, actions)
    ensures AllNamed(Cut(doc)) && NoDangling(Cut(doc)) && NoRepeats(Cut(doc))
  {
    hide StepIds, Lookup, UniqueIds, RowsOk, NoDup, Known, CutStep, CutTo;
    var lookup, cut := Lookup(doc), Cut(doc);
    CutFacts(doc, lookup);
    LookupSound(doc);
    forall i | 0 <= i < |cut|
      ensures NoDup(cut[i].SuccessIds()) && NoDup(cut[i].ErrorIds())
      ensures forall v :: v in cut[i].SuccessIds() + cut[i].ErrorIds() ==> v in StepIds(cut)
    {
      CutMember(doc, lookup, i);
      var k :| 0 <= k < |doc| && doc[k].stepId != "" && cut[i] == CutStep(doc[k], lookup);
      CutLists(doc[k], lookup);
      forall v | v in cut[i].SuccessIds() + cut[i].ErrorIds()
        ensures v in StepIds(cut)
      {
        KnownMember(doc[k].SuccessIds(), lookup, v);
        KnownMember(doc[k].ErrorIds(), lookup, v);
      }
    }
  }

  /** The verdict on what is read back is the verdict on the cut list, for every list the tables can hold. */
  lemma GateVerdictIsCut(doc: seq<Step>, back: seq<Step>, actions: set<int>)
    requires Writable(doc, actions) && RoundTripped(doc, back)
    ensures GateInFanOut(back, StepIds(back)) <==> GateInFanOut(Cut(doc), StepIds(Cut(doc)))
  {
    hide Writable, RoundTripped, GateInFanOut, Cut, NoDangling, NoRepeats, AllNamed;
    CutClean(doc, actions);
    CutRoundTripped(doc, back);
    SameGateVerdictBack(Cut(doc), back);
  }

  // ---------- said of the list itself ----------

  ghost predicate ReachesGate(m: map<string, Step>, joins: set<string>, ids: seq<string>) {
    exists g :: IsGateId(m, g) && Reached(m, joins, ids, g)
  }

  /** A branch list of a step. */
  predicate IsListOf(s: Step, ids: seq<string>) {
    ids == s.SuccessIds() || ids == s.ErrorIds()
  }

  ghost predicate Leads(doc: seq<Step>, ids: seq<string>) {
    (exists s :: s in doc && IsListOf(s, ids)) && ReachesGate(Lookup(doc), JoinPoints(doc, StepIds(doc)), ids)
  }

  /** Some list with at least two targets that name a step leads to a gate inside a branch. */
  ghost predicate KnownGateInFanOut(doc: seq<Step>) {
    exists ids :: Leads(doc, ids) && |Known(ids, Lookup(doc))| >= 2
  }

  lemma GateInFanOutLeads(doc: seq<Step>)
    ensures GateInFanOut(doc, StepIds(doc)) <==> exists ids :: Leads(doc, ids) && |ids| >= 2
  {
    hide StepIds, Lookup, JoinPoints, Reached;
    var joins := JoinPoints(doc, StepIds(doc));
    if GateInFanOut(doc, StepIds(doc)) {
      var s :| s in doc && (BranchHasGate(Lookup(doc), joins, s.SuccessIds())
        || BranchHasGate(Lookup(doc), joins, s.ErrorIds()));
      var ids := if BranchHasGate(Lookup(doc), joins, s.SuccessIds()) then s.SuccessIds() else s.ErrorIds();
      assert IsListOf(s, ids) && Leads(doc, ids);
    }
    if ids :| Leads(doc, ids) && |ids| >= 2 {
      var s :| s in doc && IsListOf(s, ids);
      assert BranchHasGate(Lookup(doc), joins, ids);
    }
  }

  lemma {:induction false} KnownCount(ids: seq<string>, lookup: map<string, Step>, id: string)
    requires id in lookup
    ensures multiset(Known(ids, lookup))[id] == multiset(ids)[id]
    ensures |Known(ids, lookup)| <= |ids|
  {
    if ids != [] {
      KnownCount(ids[..|ids| - 1], lookup, id);
      assert ids == ids[..|ids| - 1] + [ids[|ids| - 1]];
    }
  }

  lemma {:induction false} CutMentions(doc: seq<Step>, lookup: map<string, Step>, id: string)
    requires id in lookup && forall i :: 0 <= i < |doc| ==> doc[i].stepId != ""
    ensures InDegree(CutTo(doc, lookup), id) == InDegree(doc, id)
  {
    if doc != [] {
      hide CutStep, Known;
      var n := |doc| - 1;
      CutMentions(doc[..n], lookup, id);
      CutLists(doc[n], lookup);
      KnownCount(doc[n].SuccessIds(), lookup, id);
      KnownCount(doc[n].ErrorIds(), lookup, id);
      var init := CutTo(doc[..n], lookup);
      assert (init + [CutStep(doc[n], lookup)])[..|init|] == init;
    }
  }

  lemma CutJoins(doc: seq<Step>)
    requires AllNamed(doc)
    ensures JoinPoints(Cut(doc), StepIds(Cut(doc))) == JoinPoints(doc, StepIds(doc))
  {
    hide StepIds, Lookup, InDegree, CutTo, CutStep;
    CutFacts(doc, Lookup(doc));
    LookupSound(doc);
    forall id | id in StepIds(doc)
      ensures InDegree(Cut(doc), id) == InDegree(doc, id)
    {
      CutMentions(doc, Lookup(doc), id);
    }
  }

  lemma CutNext(doc: seq<Step>, u: string, v: string)
    ensures v in Next(Lookup(Cut(doc)), u) <==> v in Next(Lookup(doc), u) && v in Lookup(doc)
  {
    hide Lookup, CutTo, CutStep, Known;
    CutFacts(doc, Lookup(doc));
    if u in Lookup(doc) {
      var s := Lookup(doc)[u];
      CutLists(s, Lookup(doc));
      KnownMember(s.SuccessIds(), Lookup(doc), v);
      KnownMember(s.ErrorIds(), Lookup(doc), v);
    }
  }

  /** A branch path to a step runs through steps only. */
  lemma PathIsCut(doc: seq<Step>, joins: set<string>, ids: seq<string>, p: seq<string>)
    requires |p| > 0 && p[|p| - 1] in Lookup(doc)
    ensures BranchPath(Lookup(doc), joins, ids, p) <==> BranchPath(Lookup(Cut(doc)), joins, Known(ids, Lookup(doc)), p)
  {
    hide Lookup, Cut, Known, Next;
    KnownMember(ids, Lookup(doc), p[0]);
    forall i | 0 <= i < |p| - 1
      ensures p[i + 1] in Next(Lookup(Cut(doc)), p[i]) <==>
        p[i + 1] in Next(Lookup(doc), p[i]) && p[i + 1] in Lookup(doc)
    {
      CutNext(doc, p[i], p[i + 1]);
    }
    if BranchPath(Lookup(doc), joins, ids, p) {
      forall i | 0 <= i < |p|
        ensures p[i] in Lookup(doc)
      {
        if i < |p| - 1 {
          assert p[i + 1] in Next(Lookup(doc), p[i]);
          NextIsKey(Lookup(doc), p[i], p[i + 1]);
        }
      }
    }
  }

  lemma NextIsKey(m: map<string, Step>, u: string, v: string)
    requires v in Next(m, u)
    ensures u in m
  {
  }

  lemma PathTo(m: map<string, Step>, joins: set<string>, ids: seq<string>, g: string) returns (p: seq<string>)
    requires Reached(m, joins, ids, g)
    ensures |p| > 0 && BranchPath(m, joins, ids, p) && p[|p| - 1] == g
  {
    p :| BranchPath(m, joins, ids, p) && p[|p| - 1] == g;
  }

  lemma CutReaches(doc: seq<Step>, joins: set<string>, ids: seq<string>)
    ensures ReachesGate(Lookup(doc), joins, ids) <==> ReachesGate(Lookup(Cut(doc)), joins, Known(ids, Lookup(doc)))
  {
    hide Lookup, Cut, Known, BranchPath;
    var m, cut, known := Lookup(doc), Lookup(Cut(doc)), Known(ids, Lookup(doc));
    forall g
      ensures IsGateId(m, g) <==> IsGateId(cut, g)
    {
      CutGate(doc, g);
    }
    if g :| IsGateId(m, g) && Reached(m, joins, ids, g) {
      var p := PathTo(m, joins, ids, g);
      PathIsCut(doc, joins, ids, p);
      assert Reached(cut, joins, known, g);
    }
    if g :| IsGateId(cut, g) && Reached(cut, joins, known, g) {
      var p := PathTo(cut, joins, known, g);
      assert IsGateId(m, g);
      PathIsCut(doc, joins, ids, p);
      assert Reached(m, joins, ids, g);
    }
  }

  lemma CutGate(doc: seq<Step>, g: string)
    ensures IsGateId(Lookup(Cut(doc)), g) <==> IsGateId(Lookup(doc), g)
  {
    hide Lookup, CutTo;
    CutFacts(doc, Lookup(doc));
  }

  lemma CutLeads(doc: seq<Step>)
    requires AllNamed(doc)
    ensures GateInFanOut(Cut(doc), StepIds(Cut(doc))) <==> KnownGateInFanOut(doc)
  {
    hide Lookup, StepIds, ReachesGate, JoinPoints, Known, CutTo, CutStep, GateInFanOut;
    GateInFanOutLeads(Cut(doc));
    CutJoins(doc);
    var lookup := Lookup(doc);
    if cut :| Leads(Cut(doc), cut) && |cut| >= 2 {
      var s :| s in Cut(doc) && IsListOf(s, cut);
      var i :| 0 <= i < |Cut(doc)| && Cut(doc)[i] == s;
      CutMember(doc, lookup, i);
      var k :| 0 <= k < |doc| && doc[k].stepId != "" && s == CutStep(doc[k], lookup);
      CutLists(doc[k], lookup);
      var ids := if cut == s.SuccessIds() then doc[k].SuccessIds() else doc[k].ErrorIds();
      CutReaches(doc, JoinPoints(doc, StepIds(doc)), ids);
      assert IsListOf(doc[k], ids) && Leads(doc, ids);
    }
    if ids :| Leads(doc, ids) && |Known(ids, lookup)| >= 2 {
      var s :| s in doc && IsListOf(s, ids);
      var k :| 0 <= k < |doc| && doc[k] == s;
      MemberCut(doc, lookup, k);
      CutLists(s, lookup);
      CutReaches(doc, JoinPoints(doc, StepIds(doc)), ids);
      assert IsListOf(CutStep(s, lookup), Known(ids, lookup)) && Leads(Cut(doc), Known(ids, lookup));
    }
  }

  // ---------- steps without an id ----------

  /** The steps that have an id: the others are never written. */
  function WithIds(doc: seq<Step>): seq<Step> {
    if doc == [] then [] else
      var last := doc[|doc| - 1];
      WithIds(doc[..|doc| - 1]) + if last.stepId == "" then [] else [last]
  }

  lemma {:induction false} WithIdsCut(doc: seq<Step>, lookup: map<string, Step>)
    ensures CutTo(WithIds(doc), lookup) == CutTo(doc, lookup) && Lookup(WithIds(doc)) == Lookup(doc)
  {
    hide CutStep;
    if doc != [] {
      var n := |doc| - 1;
      WithIdsCut(doc[..n], lookup);
      var init := WithIds(doc[..n]);
      if doc[n].stepId == "" {
        assert WithIds(doc) == init;
      } else {
        assert (init + [doc[n]])[..|init|] == init;
      }
    }
  }

  lemma {:induction false} WithIdsNamed(doc: seq<Step>)
    ensures StepIds(WithIds(doc)) == StepIds(doc) && (UniqueIds(doc) ==> AllNamed(WithIds(doc)))
  {
    hide UniqueIds, AllNamed, StepIds;
    NothingNamed();
    if doc != [] {
      var n := |doc| - 1;
      WithIdsNamed(doc[..n]);
      var init := WithIds(doc[..n]);
      assert doc == doc[..n] + [doc[n]];
      UniqueSnoc(doc[..n], doc[n]);
      if doc[n].stepId == "" {
        assert WithIds(doc) == init;
      } else {
        NamedSnoc(init, doc[n]);
      }
    }
  }

  lemma {:induction false} AllHaveIds(doc: seq<Step>)
    requires forall i :: 0 <= i < |doc| ==> doc[i].stepId != ""
    ensures WithIds(doc) == doc
  {
    if doc != [] {
      AllHaveIds(doc[..|doc| - 1]);
    }
  }

  /** The gate check rejects what is read back exactly when, among the steps that have an id, some list with at least
      two targets that name a step leads to a gate inside a branch. */
  lemma GateVerdictBackIff(doc: seq<Step>, back: seq<Step>, actions: set<int>)
    requires Writable(doc, actions) && RoundTripped(doc, back)
    ensures GateInFanOut(back, StepIds(back)) <==> KnownGateInFanOut(WithIds(doc))
  {
    hide RoundTripped, GateInFanOut, AllNamed, KnownGateInFanOut, StepIds, RowsOk, UniqueIds, CutTo;
    GateVerdictIsCut(doc, back, actions);
    WithIdsCut(doc, Lookup(doc));
    WithIdsNamed(doc);
    CutLeads(WithIds(doc));
  }

  /** Whoever leads to a gate has one target that names a step. */
  ghost predicate OnlyLoneLeads(doc: seq<Step>) {
    forall ids :: Leads(doc, ids) ==> |Known(ids, Lookup(doc))| == 1
  }

  lemma LeadsByKnown(doc: seq<Step>, ids: seq<string>)
    requires Leads(doc, ids)
    ensures 1 <= |Known(ids, Lookup(doc))| <= |ids|
  {
    hide Lookup, StepIds, JoinPoints, Known, IsGateId, BranchPath;
    var m, joins := Lookup(doc), JoinPoints(doc, StepIds(doc));
    var g :| IsGateId(m, g) && Reached(m, joins, ids, g);
    var p := PathTo(m, joins, ids, g);
    PathStarts(m, joins, ids, p);
    KnownMember(ids, m, p[0]);
    KnownCount(ids, m, p[0]);
  }

  lemma PathStarts(m: map<string, Step>, joins: set<string>, ids: seq<string>, p: seq<string>)
    requires |p| > 0 && BranchPath(m, joins, ids, p) && IsGateId(m, p[|p| - 1])
    ensures p[0] in ids && p[0] in m
  {
    if |p| > 1 {
      assert p[0 + 1] in Next(m, p[0]);
    }
  }

  lemma LoneOrKnown(doc: seq<Step>)
    ensures OnlyLoneLeads(doc) <==> !KnownGateInFanOut(doc)
  {
    hide Leads, Known, Lookup;
    forall ids | Leads(doc, ids)
      ensures 1 <= |Known(ids, Lookup(doc))| <= |ids|
    {
      LeadsByKnown(doc, ids);
    }
  }

  /** The round trip changes the verdict in two ways: a rejected list passes when, among the steps that have an id,
      every list that leads to a gate has a single target that names a step; and a list that passes is rejected when
      some such list has two, which takes a step without an id. */
  lemma GateVerdictsDifferIff(doc: seq<Step>, back: seq<Step>, actions: set<int>)
    requires Writable(doc, actions) && RoundTripped(doc, back)
    ensures GateInFanOut(doc, StepIds(doc)) != GateInFanOut(back, StepIds(back)) <==>
      if GateInFanOut(doc, StepIds(doc)) then OnlyLoneLeads(WithIds(doc)) else KnownGateInFanOut(WithIds(doc))
    ensures !GateInFanOut(doc, StepIds(doc)) && GateInFanOut(back, StepIds(back)) ==>
      exists i :: 0 <= i < |doc| && doc[i].stepId == ""
  {
    hide Writable, RoundTripped, GateInFanOut, OnlyLoneLeads, KnownGateInFanOut, StepIds;
    GateVerdictBackIff(doc, back, actions);
    LoneOrKnown(WithIds(doc));
    if forall i :: 0 <= i < |doc| ==> doc[i].stepId != "" {
      AllHaveIds(doc);
      KnownIsFanOut(doc);
    }
  }

  lemma KnownIsFanOut(doc: seq<Step>)
    ensures KnownGateInFanOut(doc) ==> GateInFanOut(doc, StepIds(doc))
  {
    hide Leads, Known, GateInFanOut, StepIds, Lookup;
    GateInFanOutLeads(doc);
    if ids :| Leads(doc, ids) && |Known(ids, Lookup(doc))| >= 2 {
      LeadsByKnown(doc, ids);
    }
  }
}
