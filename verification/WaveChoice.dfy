/** In workflows without join points each step has one parent. There, in a world where each step has one answer, a run
    goes on from every step of a wave to all that the answer leads to. */
module WaveChoice {
  import opened Digraph
  import opened Workflow
  import opened Routing
  import opened WaveRun
  import opened WaveTheorems
  import opened WaveGraph
  import opened WaveGates
  import GateCheck

  // ---------- one parent ----------

  predicate Mentions(s: Step, t: string) {
    t in s.SuccessIds() || t in s.ErrorIds()
  }

  lemma LastMentions(steps: seq<Step>, t: string)
    requires steps != []
    ensures var s := steps[|steps| - 1];
            GateCheck.InDegree(steps, t) ==
              GateCheck.InDegree(steps[..|steps| - 1], t) + multiset(s.SuccessIds())[t] + multiset(s.ErrorIds())[t]
  {
  }

  lemma {:induction false} CountAt(steps: seq<Step>, i: nat, t: string)
    requires i < |steps|
    ensures GateCheck.InDegree(steps, t) >= multiset(steps[i].SuccessIds())[t] + multiset(steps[i].ErrorIds())[t]
  {
    hide GateCheck.InDegree;
    LastMentions(steps, t);
    if i < |steps| - 1 {
      CountAt(steps[..|steps| - 1], i, t);
    }
  }

  lemma {:induction false} CountTwo(steps: seq<Step>, i: nat, j: nat, t: string)
    requires i < j < |steps| && Mentions(steps[i], t) && Mentions(steps[j], t)
    ensures GateCheck.InDegree(steps, t) >= 2
  {
    hide GateCheck.InDegree;
    var n := |steps| - 1;
    LastMentions(steps, t);
    if j < n {
      CountTwo(steps[..n], i, j, t);
    } else {
      CountAt(steps[..n], i, t);
    }
  }

  lemma NamedOnce(c: Config, v: string)
    requires NoJoins(c) && v in Lookup(c.steps)
    ensures GateCheck.InDegree(c.steps, v) < 2
  {
    hide Lookup, StepIds, GateCheck.InDegree;
    LookupSound(c.steps);
    assert v !in GateCheck.JoinPoints(c.steps, StepIds(c.steps));
  }

  lemma FollowsMentions(c: Config, u: string, v: string) returns (i: nat)
    requires Follows(c, u, v)
    ensures i < |c.steps| && c.steps[i] == Lookup(c.steps)[u] && c.steps[i].stepId == u && Mentions(c.steps[i], v)
  {
    LookupSound(c.steps);
    i :| 0 <= i < |c.steps| && c.steps[i] == Lookup(c.steps)[u];
  }

  lemma UniqueParent(c: Config, u: string, u': string, v: string)
    requires NoJoins(c) && Follows(c, u, v) && Follows(c, u', v) && v in Lookup(c.steps)
    ensures u == u'
  {
    hide NoJoins, Follows, Lookup, GateCheck.InDegree;
    NamedOnce(c, v);
    var i := FollowsMentions(c, u, v);
    var j := FollowsMentions(c, u', v);
    if i < j {
      CountTwo(c.steps, i, j, v);
    } else if j < i {
      CountTwo(c.steps, j, i, v);
    }
  }

  lemma OneList(c: Config, u: string, v: string)
    requires NoJoins(c) && u in Lookup(c.steps) && v in Lookup(c.steps)
    ensures !(v in Lookup(c.steps)[u].SuccessIds() && v in Lookup(c.steps)[u].ErrorIds())
  {
    hide NoJoins, GateCheck.InDegree, Lookup;
    if v in Lookup(c.steps)[u].SuccessIds() && v in Lookup(c.steps)[u].ErrorIds() {
      NamedOnce(c, v);
      assert Follows(c, u, v);
      var i := FollowsMentions(c, u, v);
      CountAt(c.steps, i, v);
      assert false;
    }
  }

  lemma FollowsEdge(c: Config, u: string, v: string)
    requires Closed(c) && Follows(c, u, v)
    ensures u in Lookup(c.steps) && v in Lookup(c.steps) && v in Out(GraphOf(c.steps), u)
  {
    hide Lookup;
  }

  // ---------- a world with one answer for each step ----------

  /** Steps complete or fail as f says, and nobody cancels. */
  function Answering(f: string -> Status): World {
    World(_ => false, (_, id) => Returns(f(id)), (_, _) => [], (_, n) => (n, n))
  }

  ghost predicate IsPlain(f: string -> Status) {
    forall id :: f(id) == Completed || f(id) == Failed
  }

  lemma AnswersInTime(f: string -> Status, k: nat, n: nat)
    ensures InTime(Answering(f), k, n) == n
  {
  }

  /** In that world u goes on to t. */
  predicate Chosen(c: Config, f: string -> Status, u: string, t: string) {
    u in Lookup(c.steps) && t in NextStepIds(Lookup(c.steps)[u], f(u), c.steps)
  }

  predicate IsBranch(c: Config, f: string -> Status, id: string, b: Branch) {
    id in Lookup(c.steps) && b == Branch(f(id), NextStepIds(Lookup(c.steps)[id], f(id), c.steps))
  }

  lemma {:induction false} FinishIn(c: Config, f: string -> Status, wave: seq<string>, base: nat, order: seq<nat>)
    requires AllKnown(wave, Lookup(c.steps)) && forall i :: 0 <= i < |order| ==> order[i] < |wave|
    ensures var at := Finish(c, Answering(f), wave, base, order).1.at;
            && (forall id :: id in at ==> id in wave && IsBranch(c, f, id, at[id]))
            && (forall i :: 0 <= i < |order| ==> wave[order[i]] in at)
  {
    hide Lookup, NextStepIds, Allocated;
    if order != [] {
      FinishIn(c, f, wave, base, order[..|order| - 1]);
    }
  }

  /** At most one step of a wave names a step, so its join policy has nothing to say. */
  lemma {:induction false} PredsFew(c: Config, wave: seq<string>, results: Results, t: string, n: nat)
    requires NoJoins(c) && NoDup(wave) && AllKnown(wave, Lookup(c.steps)) && n <= |wave| && t in Lookup(c.steps)
    ensures |PredStatuses(SubSteps(wave, Lookup(c.steps))[..n], results, t)| <= 1
    ensures PredStatuses(SubSteps(wave, Lookup(c.steps))[..n], results, t) != [] ==>
      exists i :: 0 <= i < n && Follows(c, wave[i], t)
  {
    hide NoJoins, Lookup, StatusOf;
    var steps := SubSteps(wave, Lookup(c.steps));
    if n > 0 {
      PredsFew(c, wave, results, t, n - 1);
      assert steps[..n][..n - 1] == steps[..n - 1];
      if t in steps[n - 1].Neighbors() {
        assert Follows(c, wave[n - 1], t);
        if i :| 0 <= i < n - 1 && Follows(c, wave[i], t) {
          UniqueParent(c, wave[i], wave[n - 1], t);
        }
      }
    }
  }

  lemma JoinsAlone(c: Config, wave: seq<string>, results: Results, t: string)
    requires NoJoins(c) && NoDup(wave) && AllKnown(wave, Lookup(c.steps)) && t in Lookup(c.steps)
    ensures Joins(SubSteps(wave, Lookup(c.steps)), results, Lookup(c.steps), t)
  {
    hide NoJoins, Lookup;
    var steps := SubSteps(wave, Lookup(c.steps));
    PredsFew(c, wave, results, t, |wave|);
    assert steps[..|wave|] == steps;
  }

  lemma InDedup(ids: seq<string>, t: string)
    requires t in ids
    ensures t in Dedup(ids) && Dedup(ids) != []
  {
    hide Dedup;
    DedupFacts(ids);
  }

  lemma SingleGoesOn(c: Config, f: string -> Status, r: Run, t: string)
    requires IsPlain(f) && |r.wave| == 1 && r.outcome.None? && r.transitions + 1 <= c.maxTransitions
    requires Chosen(c, f, r.wave[0], t)
    ensures var r' := Single(c, Answering(f), r);
            r'.outcome.None? && t in r'.wave
  {
    hide Lookup, Dedup, NextStepIds;
    LookupSound(c.steps);
    InDedup(NextStepIds(Lookup(c.steps)[r.wave[0]], f(r.wave[0]), c.steps), t);
  }

  lemma FanOutGoesOn(c: Config, f: string -> Status, r: Run, u: string, t: string)
    requires IsPlain(f) && NoJoins(c) && NoDup(r.wave) && r.outcome.None? && AllKnown(r.wave, Lookup(c.steps))
    requires r.transitions + |r.wave| <= c.maxTransitions && u in r.wave && Chosen(c, f, u, t) && t in Lookup(c.steps)
    ensures var r' := FanOut(c, Answering(f), r);
            r'.outcome.None? && t in r'.wave
  {
    hide Lookup, Dedup, NextStepIds, NoJoins, Finish, FinishOrder, JoinPolicy, Joins, Answering, Collected, InTime;
    var w, n := Answering(f), |r.wave|;
    var order := FinishOrder(w, r.ticks, n);
    var results := Collected(c, w, r.wave, r.orders, r.ticks);
    CollectedFacts(c, w, r.wave, r.orders, r.ticks);
    assert InTime(w, r.ticks, n) == n by { AnswersInTime(f, r.ticks, n); }
    FinishIn(c, f, r.wave, r.orders, order);
    var i :| 0 <= i < n && r.wave[i] == u;
    var k := Position(order, n, i);
    assert r.wave[order[k]] in results.at;
    assert u in results.at && t in results.at[u].next;
    assert !HasStatus(results, Cancelled);
    JoinsAlone(c, r.wave, results, t);
    var steps := SubSteps(r.wave, Lookup(c.steps));
    JoinPolicyMember(steps, results, Lookup(c.steps), t);
    InDedup(JoinPolicy(steps, results, Lookup(c.steps)), t);
  }

  /** With room under the cap the run goes on to t, whatever else the wave holds. */
  lemma GoesOnTo(c: Config, f: string -> Status, r: Run, u: string, t: string)
    requires IsPlain(f) && NoJoins(c) && NoDup(r.wave) && r.outcome.None? && AllKnown(r.wave, Lookup(c.steps))
    requires r.transitions + |r.wave| <= c.maxTransitions && u in r.wave && Chosen(c, f, u, t) && t in Lookup(c.steps)
    ensures var r' := WaveStep(c, Answering(f), r);
            r'.outcome.None? && t in r'.wave
  {
    hide Lookup, Single, FanOut, NoJoins, Chosen, IsPlain;
    if |r.wave| == 1 {
      SingleGoesOn(c, f, r, t);
    } else {
      FanOutGoesOn(c, f, r, u, t);
    }
  }

  /** With room under the cap, a wave that does not end the run is dispatched whole. */
  lemma DispatchesWave(c: Config, w: World, r: Run)
    requires r.outcome.None? && WaveStep(c, w, r).outcome.None? && r.transitions + |r.wave| <= c.maxTransitions
    ensures var r' := WaveStep(c, w, r);
            r'.dispatched == r.dispatched + r.wave && r'.transitions == r.transitions + |r.wave|
  {
    hide Lookup, Dedup, NextStepIds, JoinPolicy, HasStatus, Finish, FinishOrder;
    LookupSound(c.steps);
  }
}
