/** The runtime routes the normalised form of a workflow differently where a success list was
    present but empty: the key is gone, so the step falls through to the next one by order. */
module StoreRouting {
  import opened Digraph
  import opened Workflow
  import opened Routing
  import opened Text
  import opened StoreRoundTrip
  import opened StoreParity
  import opened WaveRun
  import Validator

  /** u is the next step by order after the given order. */
  ghost predicate IsNextByOrder(doc: seq<Step>, order: int, u: string) {
    && u in Lookup(doc) && Lookup(doc)[u].order > order
    && forall v :: v in Lookup(doc) && Lookup(doc)[v].order > order ==> Lookup(doc)[u].order <= Lookup(doc)[v].order
  }

  lemma {:induction false} LaterMember(order: int, steps: seq<Step>, s: Step)
    ensures s in Later(order, steps) <==> s in steps && s.order > order && s.stepId != ""
  {
    if steps != [] {
      LaterMember(order, steps[..|steps| - 1], s);
      assert steps == steps[..|steps| - 1] + [steps[|steps| - 1]];
    }
  }

  /** What the linear fallback picks, in terms of the step dictionary. */
  lemma LinearPicks(doc: seq<Step>, s: Step)
    requires UniqueIds(doc)
    ensures |LinearNextStepIds(s, doc)| <= 1
    ensures forall u :: u in LinearNextStepIds(s, doc) ==> IsNextByOrder(doc, s.order, u)
    ensures LinearNextStepIds(s, doc) != [] ==> IsNextByOrder(doc, s.order, LinearNextStepIds(s, doc)[0])
    ensures LinearNextStepIds(s, doc) == [] ==> forall u :: u in Lookup(doc) ==> Lookup(doc)[u].order <= s.order
  {
    hide Lookup, UniqueIds, Later, FirstByOrder;
    var later := Later(s.order, doc);
    LookupSound(doc);
    forall u | u in Lookup(doc)
      ensures Lookup(doc)[u].order > s.order <==> Lookup(doc)[u] in later
    {
      LaterMember(s.order, doc, Lookup(doc)[u]);
    }
    if later != [] {
      var first := FirstByOrder(later);
      LaterMember(s.order, doc, first);
      var i :| 0 <= i < |doc| && doc[i] == first;
      LookupUnique(doc, i);
    }
  }

  /** At most one step is the next by order: no tie. */
  ghost predicate UniqueNext(doc: seq<Step>, order: int) {
    forall a, b :: IsNextByOrder(doc, order, a) && IsNextByOrder(doc, order, b) ==> a == b
  }

  lemma OrdersReadBack(doc: seq<Step>, back: seq<Step>)
    requires RoundTripped(doc, back)
    ensures Lookup(doc).Keys == Lookup(back).Keys
    ensures forall u :: u in Lookup(doc) ==> Lookup(back)[u].order == Lookup(doc)[u].order
  {
    hide Lookup, UniqueIds, StepIds;
    LookupSound(doc);
    LookupSound(back);
    forall u | u in Lookup(doc)
      ensures Lookup(back)[u].order == Lookup(doc)[u].order
    {
      BackStep(doc, back, u);
    }
  }

  lemma BackUnique(doc: seq<Step>, back: seq<Step>)
    requires RoundTripped(doc, back)
    ensures UniqueIds(back)
  {
  }

  lemma NextReadBack(doc: seq<Step>, back: seq<Step>, order: int, u: string)
    requires RoundTripped(doc, back)
    ensures IsNextByOrder(doc, order, u) <==> IsNextByOrder(back, order, u)
  {
    hide Lookup, RoundTripped;
    OrdersReadBack(doc, back);
  }

  /** Both forms have a next step by order or neither has; without a tie it is the same. */
  lemma LinearReadBack(doc: seq<Step>, back: seq<Step>, s: Step, t: Step)
    requires RoundTripped(doc, back) && UniqueIds(doc) && s.order == t.order
    ensures LinearNextStepIds(s, doc) == [] <==> LinearNextStepIds(t, back) == []
    ensures |LinearNextStepIds(s, doc)| <= 1 && |LinearNextStepIds(t, back)| <= 1
    ensures forall v :: v in LinearNextStepIds(t, back) ==> IsNextByOrder(doc, s.order, v)
    ensures UniqueNext(doc, s.order) ==> LinearNextStepIds(s, doc) == LinearNextStepIds(t, back)
  {
    hide Lookup, UniqueIds, LinearNextStepIds, RoundTripped;
    OrdersReadBack(doc, back);
    LinearPicks(doc, s);
    BackUnique(doc, back);
    LinearPicks(back, t);
    var a, b := LinearNextStepIds(s, doc), LinearNextStepIds(t, back);
    forall v | v in b
      ensures IsNextByOrder(doc, s.order, v)
    {
      NextReadBack(doc, back, s.order, v);
    }
    if a != [] && b != [] {
      assert IsNextByOrder(doc, s.order, a[0]) && b[0] in b;
    }
  }

  /** The runtime follows the same steps in both forms, whatever the outcome. */
  ghost predicate RoutedAlike(doc: seq<Step>, back: seq<Step>, s: Step, t: Step) {
    forall outcome, v :: v in NextStepIds(s, outcome, doc) <==> v in NextStepIds(t, outcome, back)
  }

  ghost predicate TargetsKnown(doc: seq<Step>, s: Step) {
    forall v :: v in s.SuccessIds() || v in s.ErrorIds() ==> v in StepIds(doc)
  }

  lemma ReadBackLists(doc: seq<Step>, s: Step, t: Step)
    requires ReadBack(doc, s, t)
    ensures t.order == s.order
    ensures t.onSuccess == Missing <==> t.SuccessIds() == []
    ensures forall v :: v in t.SuccessIds() <==> v in s.SuccessIds() && v in StepIds(doc)
    ensures forall v :: v in t.ErrorIds() <==> v in s.ErrorIds() && v in StepIds(doc)
  {
    hide StepIds, NoDup;
  }

  lemma FallbackKnown(doc: seq<Step>, order: int, v: string)
    requires IsNextByOrder(doc, order, v)
    ensures v in StepIds(doc)
  {
    hide StepIds, Lookup;
    LookupSound(doc);
  }

  /** What routing in the two forms has to agree on. */
  ghost predicate SameFallback(doc: seq<Step>, back: seq<Step>, s: Step, t: Step) {
    || s.SuccessIds() != [] || LinearNextStepIds(s, doc) == []
    || (s.onSuccess == Missing && LinearNextStepIds(s, doc) == LinearNextStepIds(t, back))
  }

  lemma RoutedAlikeIff(doc: seq<Step>, back: seq<Step>, s: Step, t: Step)
    requires RoundTripped(doc, back) && UniqueIds(doc) && ReadBack(doc, s, t)
    ensures RoutedAlike(doc, back, s, t) <==> TargetsKnown(doc, s) && SameFallback(doc, back, s, t)
  {
    hide Lookup, UniqueIds, StepIds, RoundTripped, LinearNextStepIds, NoDup, IsNextByOrder, UniqueNext, ReadBack;
    ReadBackLists(doc, s, t);
    LinearReadBack(doc, back, s, t);
    forall v | v in LinearNextStepIds(t, back)
      ensures v in StepIds(doc)
    {
      FallbackKnown(doc, s.order, v);
    }
    if !TargetsKnown(doc, s) {
      var v :| (v in s.SuccessIds() || v in s.ErrorIds()) && v !in StepIds(doc);
      var outcome := if v in s.SuccessIds() then Completed else Failed;
      assert v in NextStepIds(s, outcome, doc) && v !in NextStepIds(t, outcome, back);
    } else if !SameFallback(doc, back, s, t) {
      var v := LinearNextStepIds(t, back)[0];
      NoneOfNone(s.SuccessIds(), t.SuccessIds());
      assert v in NextStepIds(t, Completed, back) && v !in NextStepIds(s, Completed, doc);
    } else {
      NoneOfNone(s.SuccessIds(), t.SuccessIds());
      NoneOfNone(t.SuccessIds(), s.SuccessIds());
    }
  }

  lemma NoneOfNone(a: seq<string>, b: seq<string>)
    ensures a == [] && (forall v :: v in b ==> v in a) ==> b == []
  {
    if b != [] {
      assert b[0] in b;
    }
  }

  // ---------- ties ----------

  lemma {:induction false} NoneLater(order: int, steps: seq<Step>)
    requires forall k :: 0 <= k < |steps| ==> steps[k].order <= order
    ensures Later(order, steps) == []
  {
    if steps != [] {
      NoneLater(order, steps[..|steps| - 1]);
    }
  }

  ghost predicate Sorted(steps: seq<Step>) {
    forall j, k :: 0 <= j < k < |steps| ==> steps[j].order <= steps[k].order
  }

  /** In a list sorted by order the fallback picks the first later step. */
  lemma {:induction false} FirstLater(order: int, steps: seq<Step>, i: nat)
    requires Sorted(steps) && i < |steps| && steps[i].order > order && steps[i].stepId != ""
    requires forall k :: 0 <= k < i ==> steps[k].order <= order
    ensures Later(order, steps) != [] && FirstByOrder(Later(order, steps)) == steps[i]
  {
    var n := |steps| - 1;
    if i == n {
      NoneLater(order, steps[..n]);
      assert Later(order, steps) == [steps[n]];
    } else {
      FirstLater(order, steps[..n], i);
      var init := Later(order, steps[..n]);
      if steps[n].stepId != "" {
        assert (init + [steps[n]])[..|init|] == init;
      }
    }
  }

  function Swapped(steps: seq<Step>, i: nat, j: nat): (swapped: seq<Step>)
    requires i < j < |steps|
    ensures |swapped| == |steps|
  {
    steps[i := steps[j]][j := steps[i]]
  }

  lemma {:induction false} SwappedHas(steps: seq<Step>, i: nat, j: nat, id: string)
    requires i < j < |steps|
    ensures id in StepIds(steps) ==> id in StepIds(Swapped(steps, i, j))
  {
    hide StepIds;
    StepIdsMember(steps, id);
    StepIdsMember(Swapped(steps, i, j), id);
    if id in StepIds(steps) {
      var k :| 0 <= k < |steps| && steps[k].stepId == id;
      var m := if k == i then j else if k == j then i else k;
      assert Swapped(steps, i, j)[m] == steps[k];
    }
  }

  lemma {:induction false} SwappedIds(steps: seq<Step>, i: nat, j: nat)
    requires i < j < |steps|
    ensures StepIds(Swapped(steps, i, j)) == StepIds(steps)
  {
    hide StepIds, Swapped;
    assert Swapped(Swapped(steps, i, j), i, j) == steps by { SwappedTwice(steps, i, j); }
    forall id
      ensures id in StepIds(Swapped(steps, i, j)) <==> id in StepIds(steps)
    {
      SwappedHas(steps, i, j, id);
      SwappedHas(Swapped(steps, i, j), i, j, id);
    }
  }

  lemma SwappedTwice(steps: seq<Step>, i: nat, j: nat)
    requires i < j < |steps|
    ensures Swapped(Swapped(steps, i, j), i, j) == steps
  {
  }

  /** Steps of one order may come back in either order. */
  lemma SwappedRoundTrip(doc: seq<Step>, back: seq<Step>, i: nat, j: nat)
    requires RoundTripped(doc, back) && i < j < |back| && back[i].order == back[j].order
    ensures RoundTripped(doc, Swapped(back, i, j))
  {
    hide StepIds, Lookup, ReadBack;
    SwappedIds(back, i, j);
    assert forall k :: i <= k <= j ==> back[k].order == back[i].order;
  }

  lemma BackSorted(doc: seq<Step>, back: seq<Step>)
    requires RoundTripped(doc, back)
    ensures Sorted(back) && UniqueIds(back) && forall k :: 0 <= k < |back| ==> back[k].stepId != ""
  {
    hide StepIds, Lookup, ReadBack;
    LookupSound(doc);
  }

  lemma FirstIndex(back: seq<Step>, order: int) returns (i: nat)
    requires exists k :: 0 <= k < |back| && back[k].order > order
    ensures i < |back| && back[i].order > order && forall k :: 0 <= k < i ==> back[k].order <= order
  {
    i := 0;
    while back[i].order <= order
      invariant i < |back| && forall k :: 0 <= k < i ==> back[k].order <= order
      decreases |back| - i
    {
      i := i + 1;
    }
  }

  lemma IndexOfStep(back: seq<Step>, v: string) returns (i: nat)
    requires v in Lookup(back)
    ensures i < |back| && back[i] == Lookup(back)[v] && back[i].stepId == v
  {
    LookupSound(back);
    i :| 0 <= i < |back| && back[i] == Lookup(back)[v];
  }

  /** What the fallback picks in a form read back is its first later step. */
  lemma PickAt(doc: seq<Step>, back: seq<Step>, t: Step, i: nat)
    requires RoundTripped(doc, back) && i < |back| && back[i].order > t.order
    requires forall k :: 0 <= k < i ==> back[k].order <= t.order
    ensures LinearNextStepIds(t, back) == [back[i].stepId]
  {
    hide RoundTripped, Later;
    BackSorted(doc, back);
    FirstLater(t.order, back, i);
  }

  /** With a tie some form read back picks another step. */
  lemma TieGoesBothWays(doc: seq<Step>, back: seq<Step>, t: Step) returns (other: seq<Step>)
    requires RoundTripped(doc, back) && UniqueIds(doc) && !UniqueNext(doc, t.order)
    ensures RoundTripped(doc, other) && LinearNextStepIds(t, other) != LinearNextStepIds(t, back)
  {
    hide RoundTripped, LinearNextStepIds, Lookup, UniqueIds;
    var a, b :| IsNextByOrder(doc, t.order, a) && IsNextByOrder(doc, t.order, b) && a != b;
    NextReadBack(doc, back, t.order, a);
    NextReadBack(doc, back, t.order, b);
    var ia := IndexOfStep(back, a);
    var ib := IndexOfStep(back, b);
    var i := FirstIndex(back, t.order);
    PickAt(doc, back, t, i);
    BackSorted(doc, back);
    var j := if i == ia then ib else ia;
    assert i < j && back[i].order == back[j].order by {
      assert i <= j;
      TiedAt(back, t.order, i, a, ia);
      TiedAt(back, t.order, i, b, ib);
    }
    SwappedRoundTrip(doc, back, i, j);
    other := Swapped(back, i, j);
    PickAt(doc, other, t, i);
    DifferentIds(back, i, j);
  }

  /** A next step by order has the order of the first later step. */
  lemma TiedAt(back: seq<Step>, order: int, i: nat, a: string, ia: nat)
    requires Sorted(back) && UniqueIds(back) && (forall k :: 0 <= k < |back| ==> back[k].stepId != "")
    requires i < |back| && back[i].order > order && forall k :: 0 <= k < i ==> back[k].order <= order
    requires IsNextByOrder(back, order, a) && ia < |back| && back[ia] == Lookup(back)[a] && back[ia].stepId == a
    ensures i <= ia && back[i].order == back[ia].order
  {
    hide Lookup, UniqueIds;
    LookupUnique(back, i);
    assert back[ia].order <= back[i].order;
  }

  lemma DifferentIds(back: seq<Step>, i: nat, j: nat)
    requires UniqueIds(back) && i < j < |back| && back[i].stepId != ""
    ensures [back[i].stepId] != [Swapped(back, i, j)[i].stepId]
  {
    assert back[i].stepId != back[j].stepId;
  }

  ghost predicate RoutedAlikeAt(doc: seq<Step>, back: seq<Step>, u: string) {
    u in Lookup(doc) && u in Lookup(back) && RoutedAlike(doc, back, Lookup(doc)[u], Lookup(back)[u])
  }

  /** Whatever order ties come back in, the step is routed as before. */
  ghost predicate AlwaysRoutedAlike(doc: seq<Step>, u: string) {
    forall back :: RoundTripped(doc, back) ==> RoutedAlikeAt(doc, back, u)
  }

  lemma AtIff(doc: seq<Step>, back: seq<Step>, u: string)
    requires RoundTripped(doc, back) && UniqueIds(doc) && u in StepIds(doc)
    ensures u in Lookup(doc) && u in Lookup(back) && Lookup(back)[u].order == Lookup(doc)[u].order
    ensures RoutedAlikeAt(doc, back, u) <==>
      TargetsKnown(doc, Lookup(doc)[u]) && SameFallback(doc, back, Lookup(doc)[u], Lookup(back)[u])
  {
    hide Lookup, UniqueIds, StepIds, RoundTripped, SameFallback, TargetsKnown, RoutedAlike, ReadBack;
    BackStep(doc, back, u);
    ReadBackLists(doc, Lookup(doc)[u], Lookup(back)[u]);
    RoutedAlikeIff(doc, back, Lookup(doc)[u], Lookup(back)[u]);
  }

  /** A caller can check this on the list before it is written. */
  ghost predicate RoutingKept(doc: seq<Step>, s: Step) {
    && TargetsKnown(doc, s)
    && (s.SuccessIds() != [] || LinearNextStepIds(s, doc) == [] || (s.onSuccess == Missing && UniqueNext(doc, s.order)))
  }

  /** Routing survives the round trip exactly when the step's targets all name steps and it either has a
      non-empty success list, or no step comes later, or it never had a success list and one step alone comes
      next by order. */
  lemma RoutingSurvivesIff(doc: seq<Step>, back: seq<Step>, u: string)
    requires RoundTripped(doc, back) && UniqueIds(doc) && u in StepIds(doc)
    ensures u in Lookup(doc)
    ensures var s := Lookup(doc)[u];
            AlwaysRoutedAlike(doc, u) <==> RoutingKept(doc, s)
  {
    hide Lookup, UniqueIds, StepIds, RoundTripped, LinearNextStepIds, TargetsKnown, RoutedAlikeAt, UniqueNext;
    AtIff(doc, back, u);
    var s := Lookup(doc)[u];
    if UniqueNext(doc, s.order) || s.SuccessIds() != [] || LinearNextStepIds(s, doc) == [] || s.onSuccess != Missing {
      forall other | RoundTripped(doc, other)
        ensures RoutedAlikeAt(doc, other, u) <==> RoutingKept(doc, s)
      {
        AtIff(doc, other, u);
        LinearReadBack(doc, other, s, Lookup(other)[u]);
      }
    } else {
      var other := TieGoesBothWays(doc, back, Lookup(back)[u]);
      AtIff(doc, other, u);
      SamePick(Lookup(back)[u], Lookup(other)[u], other);
    }
  }

  lemma SamePick(s: Step, t: Step, steps: seq<Step>)
    requires s.order == t.order
    ensures LinearNextStepIds(s, steps) == LinearNextStepIds(t, steps)
  {
  }

  // ---------- an accepted workflow that the round trip turns into a loop ----------

  /** B goes on to A; A is an exit. A comes first by order. */
  const EXIT_FIRST := [PlainStep("A", 1, Is([]), Is([])), PlainStep("B", 2, Is(["A"]), Is([]))]

  /** What the tables give back: A has lost its empty lists. */
  const EXIT_LOST := [
    PlainStep("A", 1, Missing, Missing).(stepType := Some("platform")),
    PlainStep("B", 2, Is(["A"]), Missing).(stepType := Some("platform"))]

  const ALL_SUCCEED := World(_ => false, (_, _) => Returns(Completed), (_, _) => [], (_, n) => (n, n))

  lemma ExitLookups()
    ensures Lookup(EXIT_FIRST) == map["A" := EXIT_FIRST[0], "B" := EXIT_FIRST[1]] && StepIds(EXIT_FIRST) == {"A", "B"}
    ensures Lookup(EXIT_LOST) == map["A" := EXIT_LOST[0], "B" := EXIT_LOST[1]] && StepIds(EXIT_LOST) == {"A", "B"}
    ensures UniqueIds(EXIT_FIRST) && UniqueIds(EXIT_LOST)
  {
    hide Lookup, StepIds, UniqueIds;
    LookupPair(EXIT_FIRST[0], EXIT_FIRST[1]);
    LookupPair(EXIT_LOST[0], EXIT_LOST[1]);
  }

  lemma ExitRoundTrip()
    ensures RoundTripped(EXIT_FIRST, EXIT_LOST)
  {
    hide Lookup, StepIds, UniqueIds;
    ExitLookups();
    assert ReadBack(EXIT_FIRST, EXIT_FIRST[0], EXIT_LOST[0]);
    assert ReadBack(EXIT_FIRST, EXIT_FIRST[1], EXIT_LOST[1]);
  }

  lemma ExitStepsOk(registry: set<string>)
    ensures forall i :: 0 <= i < 2 ==> Validator.StepOk(EXIT_FIRST[i], {"A", "B"}, registry)
    ensures forall i :: 0 <= i < 2 ==> Validator.IdOk(EXIT_FIRST[i], true)
  {
    assert !IsSpace("A"[0]) && !IsSpace("B"[0]);
  }

  lemma ExitFirstAcyclic()
    ensures Acyclic(GraphOf(EXIT_FIRST))
  {
    hide Lookup;
    ExitLookups();
    var rank: map<string, nat> := map["A" := 0, "B" := 1];
    assert IsRank(GraphOf(EXIT_FIRST), rank, 2);
    RankExcludesCycles(GraphOf(EXIT_FIRST), rank, 2);
  }

  lemma ExitFirstAccepted(registry: set<string>)
    ensures Validator.Accepted(EXIT_FIRST, None, registry)
  {
    hide Lookup, StepIds, UniqueIds, GraphOf, Acyclic, Validator.StepOk, Validator.IdOk;
    ExitLookups();
    ExitStepsOk(registry);
    ExitFirstAcyclic();
    assert Validator.IsExit(EXIT_FIRST[0]) && Validator.UsesBranchesOrRetry(EXIT_FIRST[0]);
    assert forall s :: s in EXIT_FIRST ==> |s.SuccessIds()| < 2 && |s.ErrorIds()| < 2;
  }

  lemma ExitRoutes()
    ensures NextStepIds(EXIT_LOST[0], Completed, EXIT_LOST) == ["B"]
      && NextStepIds(EXIT_LOST[1], Completed, EXIT_LOST) == ["A"]
    ensures NextStepIds(EXIT_LOST[0], Failed, EXIT_LOST) == [] && NextStepIds(EXIT_LOST[1], Failed, EXIT_LOST) == []
    ensures Dedup(["A"]) == ["A"] && Dedup(["B"]) == ["B"]
  {
    var t := EXIT_LOST;
    assert t[..1] == [t[0]] && t[..1][..0] == [];
    assert Later(1, t[..1]) == [];
    assert Later(1, t) == [t[1]];
    assert ["A"][..0] == [] && ["B"][..0] == [];
    assert Dedup(["A"][..0]) == [] && Dedup(["B"][..0]) == [];
  }

  /** The original run is B, then A, then completed. */
  lemma OriginalRunEnds(max: nat)
    requires max >= 2
    ensures var r := After(Config(EXIT_FIRST, max), ALL_SUCCEED, Start(["B"]), 2);
            r.outcome == Some(Done(Completed)) && r.dispatched == ["B", "A"]
  {
    hide Lookup, LinearNextStepIds, FanOut;
    ExitLookups();
    ExitRoutes();
    hide Dedup;
    var c := Config(EXIT_FIRST, max);
    assert Dedup([]) == [] by { DedupFacts([]); }
    assert After(c, ALL_SUCCEED, Start(["B"]), 1) == WaveStep(c, ALL_SUCCEED, After(c, ALL_SUCCEED, Start(["B"]), 0));
    assert After(c, ALL_SUCCEED, Start(["B"]), 2) == WaveStep(c, ALL_SUCCEED, After(c, ALL_SUCCEED, Start(["B"]), 1));
  }

  /** The run of the form read back goes round B, A, B, ... until the cap fails it. */
  lemma {:induction false} ReadBackRunLoops(max: nat, k: nat)
    requires k <= max
    ensures var r := After(Config(EXIT_LOST, max), ALL_SUCCEED, Start(["B"]), k);
            && r.outcome == None && r.transitions == k && |r.dispatched| == k
            && (r.wave == ["A"] || r.wave == ["B"])
  {
    hide Lookup, NextStepIds, FanOut, Dedup;
    ExitLookups();
    ExitRoutes();
    if k > 0 {
      ReadBackRunLoops(max, k - 1);
    }
  }

  /** So the round trip changes the outcome of an accepted workflow from completed to failed,
      and lets it run as many steps as the cap allows. */
  lemma RoundTripChangesOutcome(max: nat)
    requires max >= 2
    ensures RoundTripped(EXIT_FIRST, EXIT_LOST) && Validator.Accepted(EXIT_FIRST, None, {})
    ensures After(Config(EXIT_FIRST, max), ALL_SUCCEED, Start(["B"]), 2).outcome == Some(Done(Completed))
    ensures var r := After(Config(EXIT_LOST, max), ALL_SUCCEED, Start(["B"]), max + 1);
            r.outcome == Some(Done(Failed)) && |r.dispatched| == max
  {
    hide Lookup, NextStepIds, FanOut, Dedup, RoundTripped, Validator.Accepted;
    ExitRoundTrip();
    ExitFirstAccepted({});
    OriginalRunEnds(max);
    ReadBackRunLoops(max, max);
    ExitLookups();
    ExitRoutes();
  }
}
