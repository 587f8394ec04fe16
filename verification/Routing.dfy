/** Execution statuses, the choice of the next steps and the join policies. */
module Routing {
  import opened Workflow

  datatype Status =
    | Submitted | IntegrationError | PendingApproval | Running
    | Completed | Failed | Cancelled | Rejected

  /** list(dict.fromkeys(ids)): first occurrences, in order. */
  function Dedup(ids: seq<string>): seq<string> {
    if ids == [] then [] else
      var init := Dedup(ids[..|ids| - 1]);
      if ids[|ids| - 1] in init then init else init + [ids[|ids| - 1]]
  }

  predicate NoDup(ids: seq<string>) {
    forall i, j :: 0 <= i < j < |ids| ==> ids[i] != ids[j]
  }

  lemma {:induction false} DedupFacts(ids: seq<string>)
    ensures NoDup(Dedup(ids))
    ensures forall id :: id in Dedup(ids) <==> id in ids
    ensures |Dedup(ids)| <= |ids|
  {
    if ids != [] {
      DedupFacts(ids[..|ids| - 1]);
      assert ids == ids[..|ids| - 1] + [ids[|ids| - 1]];
    }
  }

  /** The ids follow each other in what is kept as their first mentions do in the list. */
  ghost predicate KeepsOrder(ids: seq<string>, kept: seq<string>) {
    forall i, j :: 0 <= i < j < |kept| ==> ComesFirst(ids, kept[i], kept[j])
  }

  /** The list mentions u before it first mentions v. */
  ghost predicate ComesFirst(ids: seq<string>, u: string, v: string) {
    exists a :: 0 <= a < |ids| && ids[a] == u && v !in ids[..a + 1]
  }

  lemma {:induction false} DedupOrder(ids: seq<string>)
    ensures KeepsOrder(ids, Dedup(ids))
  {
    if ids != [] {
      var n := |ids| - 1;
      DedupOrder(ids[..n]);
      DedupFacts(ids[..n]);
      var init, all := Dedup(ids[..n]), Dedup(ids);
      forall i, j | 0 <= i < j < |all|
        ensures ComesFirst(ids, all[i], all[j])
      {
        if j < |init| {
          var a :| 0 <= a < n && ids[..n][a] == init[i] && init[j] !in ids[..n][..a + 1];
          assert ids[..n][..a + 1] == ids[..a + 1];
        } else {
          assert init[i] in ids[..n];
          var a :| 0 <= a < n && ids[..n][a] == init[i];
          assert ids[..a + 1] == ids[..n][..a + 1];
          assert all[j] == ids[n] && ids[n] !in ids[..n];
        }
      }
    }
  }

  lemma {:induction false} DedupSame(ids: seq<string>)
    requires NoDup(ids)
    ensures Dedup(ids) == ids
  {
    if ids != [] {
      var n := |ids| - 1;
      DedupSame(ids[..n]);
      assert ids == ids[..n] + [ids[n]];
    }
  }

  /** The ids that name a step. */
  function Known(ids: seq<string>, lookup: map<string, Step>): seq<string> {
    if ids == [] then [] else
      var init := Known(ids[..|ids| - 1], lookup);
      if ids[|ids| - 1] in lookup then init + [ids[|ids| - 1]] else init
  }

  lemma {:induction false} KnownMember(ids: seq<string>, lookup: map<string, Step>, id: string)
    ensures id in Known(ids, lookup) <==> id in ids && id in lookup
  {
    if ids != [] {
      KnownMember(ids[..|ids| - 1], lookup, id);
      assert ids == ids[..|ids| - 1] + [ids[|ids| - 1]];
    }
  }

  lemma {:induction false} KnownAll(ids: seq<string>, lookup: map<string, Step>)
    requires forall id :: id in ids ==> id in lookup
    ensures Known(ids, lookup) == ids
  {
    if ids != [] {
      var n := |ids| - 1;
      KnownAll(ids[..n], lookup);
      assert ids == ids[..n] + [ids[n]];
    }
  }

  /** The steps that come later by order and have an id. */
  function Later(order: int, steps: seq<Step>): seq<Step> {
    if steps == [] then [] else
      var init := Later(order, steps[..|steps| - 1]);
      var last := steps[|steps| - 1];
      if last.order > order && last.stepId != "" then init + [last] else init
  }

  /** min(steps, key=order): the first step of minimal order. */
  function FirstByOrder(steps: seq<Step>): (s: Step)
    requires steps != []
    ensures s in steps && forall t :: t in steps ==> s.order <= t.order
  {
    if |steps| == 1 then steps[0] else
      var init := FirstByOrder(steps[..|steps| - 1]);
      assert forall t :: t in steps ==> t in steps[..|steps| - 1] || t == steps[|steps| - 1];
      if steps[|steps| - 1].order < init.order then steps[|steps| - 1] else init
  }

  function LinearNextStepIds(step: Step, steps: seq<Step>): seq<string> {
    var later := Later(step.order, steps);
    if later == [] then [] else [FirstByOrder(later).stepId]
  }

  /** A completed step follows its success list, or the order when it has no such key;
      any other outcome follows the error list. */
  function NextStepIds(step: Step, outcome: Status, steps: seq<Step>): seq<string> {
    if outcome == Completed then
      if step.onSuccess == Missing then LinearNextStepIds(step, steps) else step.SuccessIds()
    else
      step.ErrorIds()
  }

  /** What one step of a parallel wave yields. */
  datatype Branch = Branch(status: Status, next: seq<string>)

  /** A Python dict from step id to Branch: keys in insertion order. */
  datatype Results = Results(keys: seq<string>, at: map<string, Branch>) {
    function Put(id: string, b: Branch): Results {
      Results(if id in at then keys else keys + [id], at[id := b])
    }

    ghost predicate Valid() {
      NoDup(keys) && forall id :: id in keys <==> id in at
    }
  }

  const NO_RESULTS := Results([], map[])

  function StatusOf(results: Results, id: string): Status {
    if id in results.at then results.at[id].status else Failed
  }

  /** The statuses of the wave's steps that list target among their branches. */
  function PredStatuses(wave: seq<Step>, results: Results, target: string): seq<Status> {
    if wave == [] then [] else
      var last := wave[|wave| - 1];
      PredStatuses(wave[..|wave| - 1], results, target) +
        if last.stepId != "" && target in last.Neighbors() then [StatusOf(results, last.stepId)] else []
  }

  function NextOfAll(keys: seq<string>, results: Results): seq<string>
    requires forall id :: id in keys ==> id in results.at
  {
    if keys == [] then [] else
      NextOfAll(keys[..|keys| - 1], results) + results.at[keys[|keys| - 1]].next
  }

  predicate Admits(policy: Option<string>, preds: seq<Status>) {
    if |preds| <= 1 then true
    else if policy == Some("one_success") then Completed in preds
    else if policy == Some("all_done") then true
    else if policy == Some("all_failed") then forall s :: s in preds ==> s == Failed
    else if policy == Some("one_failed") then Failed in preds
    else forall s :: s in preds ==> s == Completed
  }

  function PolicyOf(lookup: map<string, Step>, id: string): Option<string> {
    if id in lookup then lookup[id].joinPolicy else None
  }

  predicate Joins(wave: seq<Step>, results: Results, lookup: map<string, Step>, target: string) {
    Admits(PolicyOf(lookup, target), PredStatuses(wave, results, target))
  }

  /** The candidates admitted by their own join policy, in order. */
  function Admitted(candidates: seq<string>, wave: seq<Step>, results: Results,
                    lookup: map<string, Step>): seq<string> {
    if candidates == [] then [] else
      var last := candidates[|candidates| - 1];
      var init := Admitted(candidates[..|candidates| - 1], wave, results, lookup);
      if Joins(wave, results, lookup, last) then init + [last] else init
  }

  function JoinPolicy(wave: seq<Step>, results: Results, lookup: map<string, Step>): seq<string>
    requires results.Valid()
  {
    Admitted(Dedup(NextOfAll(results.keys, results)), wave, results, lookup)
  }

  lemma {:induction false} AdmittedMember(candidates: seq<string>, wave: seq<Step>, results: Results,
                                          lookup: map<string, Step>, id: string)
    ensures id in Admitted(candidates, wave, results, lookup) <==> id in candidates && Joins(wave, results, lookup, id)
  {
    if candidates != [] {
      AdmittedMember(candidates[..|candidates| - 1], wave, results, lookup, id);
      assert candidates == candidates[..|candidates| - 1] + [candidates[|candidates| - 1]];
    }
  }

  lemma {:induction false} NextOfAllMember(keys: seq<string>, results: Results, id: string)
    requires forall k :: k in keys ==> k in results.at
    ensures id in NextOfAll(keys, results) <==> exists k :: k in keys && id in results.at[k].next
  {
    if keys != [] {
      NextOfAllMember(keys[..|keys| - 1], results, id);
      assert keys == keys[..|keys| - 1] + [keys[|keys| - 1]];
    }
  }

  /** A step enters the next wave exactly when some finished branch names it and its join policy admits it. */
  lemma JoinPolicyMember(wave: seq<Step>, results: Results, lookup: map<string, Step>, id: string)
    requires results.Valid()
    ensures id in JoinPolicy(wave, results, lookup) <==>
              && (exists k :: k in results.at && id in results.at[k].next)
              && Joins(wave, results, lookup, id)
  {
    var all := NextOfAll(results.keys, results);
    AdmittedMember(Dedup(all), wave, results, lookup, id);
    DedupFacts(all);
    NextOfAllMember(results.keys, results, id);
  }

  // ---------- what the policies decide, said of the finished steps that name the target ----------

  /** Step i of the wave has an id and names the target in a branch list. */
  predicate NamesTarget(wave: seq<Step>, i: int, target: string) {
    && 0 <= i < |wave| && wave[i].stepId != "" && target != ""
    && ((wave[i].onSuccess.Is? && target in wave[i].onSuccess.value)
        || (wave[i].onError.Is? && target in wave[i].onError.value))
  }

  ghost predicate OneAtMost(wave: seq<Step>, target: string) {
    forall i, j :: NamesTarget(wave, i, target) && NamesTarget(wave, j, target) ==> i == j
  }

  /** Step i ended with status s; a step without a result counts as failed. */
  predicate EndedAs(wave: seq<Step>, i: int, results: Results, s: Status) {
    0 <= i < |wave| &&
    if wave[i].stepId in results.at then results.at[wave[i].stepId].status == s else s == Failed
  }

  ghost predicate AllEnded(wave: seq<Step>, results: Results, target: string, s: Status) {
    forall i :: NamesTarget(wave, i, target) ==> EndedAs(wave, i, results, s)
  }

  ghost predicate SomeEnded(wave: seq<Step>, results: Results, target: string, s: Status) {
    exists i :: NamesTarget(wave, i, target) && EndedAs(wave, i, results, s)
  }

  /** Some result goes on to the target. */
  ghost predicate IsNext(results: Results, target: string) {
    exists k :: k in results.at && target in results.at[k].next
  }

  /** The target's policy lets it run, after what the steps that name it have come to. */
  ghost predicate LetsRun(wave: seq<Step>, results: Results, lookup: map<string, Step>, target: string) {
    var policy := if target in lookup && lookup[target].joinPolicy.Some? then lookup[target].joinPolicy.value else "";
    if OneAtMost(wave, target) || policy == "all_done" then true
    else if policy == "one_success" then SomeEnded(wave, results, target, Completed)
    else if policy == "one_failed" then SomeEnded(wave, results, target, Failed)
    else if policy == "all_failed" then AllEnded(wave, results, target, Failed)
    else AllEnded(wave, results, target, Completed)
  }

  lemma LastNames(wave: seq<Step>, target: string)
    requires wave != []
    ensures var n := |wave| - 1;
            && (NamesTarget(wave, n, target) <==> wave[n].stepId != "" && target in wave[n].Neighbors())
            && forall i :: 0 <= i < n ==> (NamesTarget(wave, i, target) <==> NamesTarget(wave[..n], i, target))
  {
  }

  lemma {:induction false} PredsMember(wave: seq<Step>, results: Results, target: string, s: Status)
    ensures s in PredStatuses(wave, results, target) <==> SomeEnded(wave, results, target, s)
  {
    hide NamesTarget;
    if wave != [] {
      var n := |wave| - 1;
      PredsMember(wave[..n], results, target, s);
      LastNames(wave, target);
      if i :| NamesTarget(wave, i, target) && EndedAs(wave, i, results, s) {
        NamesInside(wave, i, target);
        if i < n {
          assert EndedAs(wave[..n], i, results, s);
        }
      }
      if i :| NamesTarget(wave[..n], i, target) && EndedAs(wave[..n], i, results, s) {
        NamesInside(wave[..n], i, target);
        assert EndedAs(wave, i, results, s);
      }
      if NamesTarget(wave, n, target) && s == StatusOf(results, wave[n].stepId) {
        assert EndedAs(wave, n, results, s);
      }
    } else {
      assert forall i :: !NamesTarget(wave, i, target) by { NothingNames(target); }
    }
  }

  lemma NamesInside(wave: seq<Step>, i: int, target: string)
    requires NamesTarget(wave, i, target)
    ensures 0 <= i < |wave|
  {
  }

  lemma NothingNames(target: string)
    ensures forall i :: !NamesTarget([], i, target)
  {
  }

  lemma {:induction false} PredsNone(wave: seq<Step>, results: Results, target: string)
    ensures PredStatuses(wave, results, target) == [] <==> forall i :: !NamesTarget(wave, i, target)
  {
    hide NamesTarget;
    if wave != [] {
      var n := |wave| - 1;
      PredsNone(wave[..n], results, target);
      LastNames(wave, target);
      if i :| NamesTarget(wave, i, target) {
        NamesInside(wave, i, target);
      }
      if i :| NamesTarget(wave[..n], i, target) {
        NamesInside(wave[..n], i, target);
        assert NamesTarget(wave, i, target);
      }
    } else {
      NothingNames(target);
    }
  }

  lemma {:induction false} PredsOne(wave: seq<Step>, results: Results, target: string)
    ensures |PredStatuses(wave, results, target)| <= 1 <==> OneAtMost(wave, target)
  {
    hide NamesTarget;
    if wave != [] {
      var n := |wave| - 1;
      var init := wave[..n];
      PredsOne(init, results, target);
      PredsNone(init, results, target);
      LastNames(wave, target);
      forall i
        ensures NamesTarget(init, i, target) ==> i < n && NamesTarget(wave, i, target)
        ensures NamesTarget(wave, i, target) ==> i <= n && (i < n ==> NamesTarget(init, i, target))
      {
        if NamesTarget(init, i, target) { NamesInside(init, i, target); }
        if NamesTarget(wave, i, target) { NamesInside(wave, i, target); }
      }
    } else {
      NothingNames(target);
    }
  }

  lemma JoinsIff(wave: seq<Step>, results: Results, lookup: map<string, Step>, target: string)
    ensures Joins(wave, results, lookup, target) <==> LetsRun(wave, results, lookup, target)
  {
    hide PredStatuses, SomeEnded;
    PredsOne(wave, results, target);
    forall s
      ensures s in PredStatuses(wave, results, target) <==> SomeEnded(wave, results, target, s)
    {
      PredsMember(wave, results, target, s);
    }
    AllIff(wave, results, target, Completed);
    AllIff(wave, results, target, Failed);
  }

  lemma AllIff(wave: seq<Step>, results: Results, target: string, s: Status)
    ensures AllEnded(wave, results, target, s) <==> forall q :: q in PredStatuses(wave, results, target) ==> q == s
  {
    hide PredStatuses, NamesTarget;
    var preds := PredStatuses(wave, results, target);
    if AllEnded(wave, results, target, s) {
      forall q | q in preds
        ensures q == s
      {
        PredsMember(wave, results, target, q);
        var i :| NamesTarget(wave, i, target) && EndedAs(wave, i, results, q);
        assert EndedAs(wave, i, results, s);
      }
    } else {
      var i :| NamesTarget(wave, i, target) && !EndedAs(wave, i, results, s);
      NamesInside(wave, i, target);
      var q := StatusOf(results, wave[i].stepId);
      assert EndedAs(wave, i, results, q);
      PredsMember(wave, results, target, q);
      assert q in preds && q != s;
    }
  }

  /** The next steps of a fan-out: each target some result goes on to and its policy lets run, once. */
  lemma PoliciesDecide(wave: seq<Step>, results: Results, lookup: map<string, Step>)
    requires results.Valid()
    ensures var next := JoinPolicy(wave, results, lookup);
            && NoDup(next) && (exists all :: InTurn(results, all) && KeepsOrder(all, next))
            && forall t :: t in next <==> IsNext(results, t) && LetsRun(wave, results, lookup, t)
  {
    hide JoinPolicy, Joins, LetsRun, InTurn, KeepsOrder;
    NextKeepOrder(wave, results, lookup);
    NextOnce(wave, results, lookup);
    forall t
      ensures t in JoinPolicy(wave, results, lookup) <==> IsNext(results, t) && LetsRun(wave, results, lookup, t)
    {
      JoinPolicyMember(wave, results, lookup, t);
      JoinsIff(wave, results, lookup, t);
    }
  }

  /** The branches of all results, one result after another. */
  ghost predicate InTurn(results: Results, all: seq<string>) {
    exists cuts :: CutBy(results, results.keys, all, cuts)
  }

  ghost predicate CutBy(results: Results, keys: seq<string>, all: seq<string>, cuts: seq<nat>) {
    && |cuts| == |keys| + 1 && cuts[0] == 0 && cuts[|keys|] == |all|
    && forall p :: 0 <= p < |keys| ==> Piece(results, keys, all, cuts, p)
  }

  /** The p-th piece is the branch of the p-th result. */
  predicate Piece(results: Results, keys: seq<string>, all: seq<string>, cuts: seq<nat>, p: nat)
    requires |cuts| == |keys| + 1 && p < |keys|
  {
    cuts[p] <= cuts[p + 1] <= |all| && keys[p] in results.at && all[cuts[p]..cuts[p + 1]] == results.at[keys[p]].next
  }

  lemma OneMorePiece(results: Results, keys: seq<string>, init: seq<string>, cuts: seq<nat>)
    requires keys != [] && keys[|keys| - 1] in results.at && CutBy(results, keys[..|keys| - 1], init, cuts)
    ensures var all := init + results.at[keys[|keys| - 1]].next;
            CutBy(results, keys, all, cuts + [|all|])
  {
    var n := |keys| - 1;
    var all := init + results.at[keys[n]].next;
    forall p: nat | p < |keys|
      ensures Piece(results, keys, all, cuts + [|all|], p)
    {
      if p < n {
        assert Piece(results, keys[..n], init, cuts, p);
        assert all[cuts[p]..cuts[p + 1]] == init[cuts[p]..cuts[p + 1]];
      }
    }
  }

  lemma {:induction false} NextInTurn(keys: seq<string>, results: Results) returns (cuts: seq<nat>)
    requires forall k :: k in keys ==> k in results.at
    ensures CutBy(results, keys, NextOfAll(keys, results), cuts)
  {
    cuts := [0];
    if keys != [] {
      hide CutBy;
      var n := |keys| - 1;
      var before := NextInTurn(keys[..n], results);
      OneMorePiece(results, keys, NextOfAll(keys[..n], results), before);
      cuts := before + [|NextOfAll(keys, results)|];
    }
  }

  lemma PrefixKeepsOrder(ids: seq<string>, kept: seq<string>, n: nat)
    requires KeepsOrder(ids, kept) && n <= |kept|
    ensures KeepsOrder(ids, kept[..n])
  {
    hide ComesFirst;
    forall i, j | 0 <= i < j < n
      ensures ComesFirst(ids, kept[..n][i], kept[..n][j])
    {
      assert ComesFirst(ids, kept[i], kept[j]);
    }
  }

  lemma {:induction false} AdmittedKeepsOrder(ids: seq<string>, candidates: seq<string>, wave: seq<Step>,
                                              results: Results, lookup: map<string, Step>)
    requires KeepsOrder(ids, candidates)
    ensures KeepsOrder(ids, Admitted(candidates, wave, results, lookup))
  {
    hide Joins;
    if candidates != [] {
      var n := |candidates| - 1;
      PrefixKeepsOrder(ids, candidates, n);
      AdmittedKeepsOrder(ids, candidates[..n], wave, results, lookup);
      var init, all := Admitted(candidates[..n], wave, results, lookup), Admitted(candidates, wave, results, lookup);
      forall i, j | 0 <= i < j < |all|
        ensures ComesFirst(ids, all[i], all[j])
      {
        if j == |init| {
          AdmittedMember(candidates[..n], wave, results, lookup, init[i]);
          var k :| 0 <= k < n && candidates[..n][k] == init[i];
          assert ComesFirst(ids, candidates[k], candidates[n]);
        }
      }
    }
  }

  /** They stand in the order in which the results first name them. */
  lemma NextKeepOrder(wave: seq<Step>, results: Results, lookup: map<string, Step>)
    requires results.Valid()
    ensures exists all :: InTurn(results, all) && KeepsOrder(all, JoinPolicy(wave, results, lookup))
  {
    hide KeepsOrder, Joins, Dedup;
    var all := NextOfAll(results.keys, results);
    var cuts := NextInTurn(results.keys, results);
    DedupOrder(all);
    AdmittedKeepsOrder(all, Dedup(all), wave, results, lookup);
    assert InTurn(results, all);
  }

  lemma NextOnce(wave: seq<Step>, results: Results, lookup: map<string, Step>)
    requires results.Valid()
    ensures NoDup(JoinPolicy(wave, results, lookup))
  {
    hide Joins;
    var all := NextOfAll(results.keys, results);
    DedupFacts(all);
    AdmittedOnce(Dedup(all), wave, results, lookup);
  }

  lemma {:induction false} AdmittedOnce(candidates: seq<string>, wave: seq<Step>, results: Results,
                                        lookup: map<string, Step>)
    requires NoDup(candidates)
    ensures NoDup(Admitted(candidates, wave, results, lookup))
  {
    hide Joins;
    if candidates != [] {
      var n := |candidates| - 1;
      AdmittedOnce(candidates[..n], wave, results, lookup);
      AdmittedMember(candidates[..n], wave, results, lookup, candidates[n]);
    }
  }

  /** preds.get(target, []) */
  function PredsOf(preds: map<string, seq<Status>>, target: string): seq<Status> {
    if target in preds then preds[target] else []
  }

  method AddPred(before: map<string, seq<Status>>, targets: set<string>, status: Status)
    returns (preds: map<string, seq<Status>>)
    ensures forall t :: PredsOf(preds, t) == PredsOf(before, t) + if t in targets then [status] else []
  {
    preds := before;
    var rest := targets;
    while rest != {}
      invariant rest <= targets
      invariant forall t :: t in targets - rest ==> PredsOf(preds, t) == PredsOf(before, t) + [status]
      invariant forall t :: t !in targets - rest ==> PredsOf(preds, t) == PredsOf(before, t)
      decreases rest
    {
      var t :| t in rest;
      preds := preds[t := PredsOf(preds, t) + [status]];
      rest := rest - {t};
    }
  }

  method CollectPreds(wave: seq<Step>, results: Results) returns (preds: map<string, seq<Status>>)
    ensures forall t :: PredsOf(preds, t) == PredStatuses(wave, results, t)
  {
    preds := map[];
    for i := 0 to |wave|
      invariant forall t :: PredsOf(preds, t) == PredStatuses(wave[..i], results, t)
    {
      assert wave[..i + 1][..i] == wave[..i];
      if wave[i].stepId != "" {
        var status := StatusOf(results, wave[i].stepId);
        preds := AddPred(preds, wave[i].Neighbors(), status);
      }
    }
    assert wave[..|wave|] == wave;
  }

  method ApplyJoinPolicy(wave: seq<Step>, results: Results, lookup: map<string, Step>) returns (next: seq<string>)
    requires results.Valid()
    ensures next == JoinPolicy(wave, results, lookup)
    ensures NoDup(next) && forall t :: t in next <==> IsNext(results, t) && LetsRun(wave, results, lookup, t)
    ensures exists all :: InTurn(results, all) && KeepsOrder(all, next)
  {
    hide Admits, PredStatuses, Dedup, LetsRun, IsNext, InTurn, KeepsOrder;
    PoliciesDecide(wave, results, lookup);
    var preds := CollectPreds(wave, results);
    var all: seq<string> := [];
    for i := 0 to |results.keys|
      invariant all == NextOfAll(results.keys[..i], results)
    {
      assert results.keys[..i + 1][..i] == results.keys[..i];
      all := all + results.at[results.keys[i]].next;
    }
    assert results.keys[..|results.keys|] == results.keys;
    var candidates := Dedup(all);
    next := [];
    for i := 0 to |candidates|
      invariant next == Admitted(candidates[..i], wave, results, lookup)
    {
      assert candidates[..i + 1][..i] == candidates[..i];
      var target := candidates[i];
      var statuses := PredsOf(preds, target);
      assert statuses == PredStatuses(wave, results, target);
      if Admits(PolicyOf(lookup, target), statuses) {
        next := next + [target];
      }
    }
    assert candidates[..|candidates|] == candidates;
  }
}
