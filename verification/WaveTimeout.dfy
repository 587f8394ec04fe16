/** What a fan-out makes of its steps: those collected count with what they came to, those pending at the timeout count
    as failed, and those that finish between the timeout and the look at who is pending count for nothing. */
module WaveTimeout {
  import opened Workflow
  import opened Routing
  import opened WaveRun
  import opened WaveOutcomes

  predicate IsLast(wave: seq<string>, i: nat, id: string) {
    i < |wave| && wave[i] == id && forall j :: i < j < |wave| ==> wave[j] != id
  }

  lemma {:induction false} LastIndexIsLast(wave: seq<string>, id: string)
    requires id in wave
    ensures IsLast(wave, LastIndex(wave, id), id)
  {
    if wave[|wave| - 1] != id {
      LastIndexIsLast(wave[..|wave| - 1], id);
    }
  }

  /** What a step attempted in a fan-out yields: its status, and where that leads. A gate that waits and a step without
      a handler count as failed; an exception leads nowhere. */
  ghost predicate BranchTells(steps: seq<Step>, s: Step, a: Attempt, b: Branch) {
    match a
    case Skips => b.status == Completed && CompletedLeads(steps, s, b.next)
    case Waits => b == Branch(Failed, ErrorList(s))
    case NoHandler => b == Branch(Failed, ErrorList(s))
    case Throws => b == Branch(Failed, [])
    case Breaks => b == Branch(Failed, [])
    case Returns(status) =>
      if status == Completed then b.status == Completed && CompletedLeads(steps, s, b.next)
      else b == Branch(status, ErrorList(s))
  }

  lemma BranchTold(c: Config, a: Attempt, s: Step)
    ensures BranchTells(c.steps, s, a, ParallelBranch(c, a, s))
  {
    hide NextStepIds, CompletedLeads, ErrorList;
    NextTells(c.steps, s, ParallelStatus(a));
  }

  /** The branch of step id, attempted with the order of its last place in the wave. */
  ghost predicate OwnBranch(c: Config, w: World, wave: seq<string>, base: nat, id: string, b: Branch) {
    && id in Lookup(c.steps)
    && exists i :: IsLast(wave, i, id) && BranchTells(c.steps, Lookup(c.steps)[id], w.attempt(base + 1 + i, id), b)
  }

  lemma OwnBranchTold(c: Config, w: World, wave: seq<string>, base: nat, id: string)
    requires id in wave && id in Lookup(c.steps)
    ensures OwnBranch(c, w, wave, base, id,
                      ParallelBranch(c, w.attempt(Allocated(wave, base, id), id), Lookup(c.steps)[id]))
  {
    hide Lookup, BranchTells, ParallelBranch, IsLast;
    LastIndexIsLast(wave, id);
    BranchTold(c, w.attempt(Allocated(wave, base, id), id), Lookup(c.steps)[id]);
  }

  /** Step id stands in the wave at one of these positions. */
  predicate Among(wave: seq<string>, order: seq<nat>, id: string) {
    exists j :: 0 <= j < |order| && order[j] < |wave| && wave[order[j]] == id
  }

  lemma AmongLonger(wave: seq<string>, order: seq<nat>, id: string)
    requires order != []
    ensures var n := |order| - 1;
            Among(wave, order, id) <==> Among(wave, order[..n], id) || (order[n] < |wave| && wave[order[n]] == id)
  {
    var n := |order| - 1;
    if Among(wave, order[..n], id) {
      var j :| 0 <= j < n && order[..n][j] < |wave| && wave[order[..n][j]] == id;
      assert order[j] == order[..n][j];
    }
    if Among(wave, order, id) {
      var j :| 0 <= j < |order| && order[j] < |wave| && wave[order[j]] == id;
      assert j < n ==> order[..n][j] == order[j];
    }
  }

  /** The steps that have finished, each with its own branch. */
  lemma {:induction false} FinishAt(c: Config, w: World, wave: seq<string>, base: nat, order: seq<nat>, id: string)
    requires AllKnown(wave, Lookup(c.steps)) && forall i :: 0 <= i < |order| ==> order[i] < |wave|
    ensures var at := Finish(c, w, wave, base, order).1.at;
            (id in at <==> Among(wave, order, id)) && (id in at ==> OwnBranch(c, w, wave, base, id, at[id]))
  {
    hide Lookup, Allocated, ParallelBranch, OwnBranch, Among;
    if order != [] {
      var n := |order| - 1;
      FinishAt(c, w, wave, base, order[..n], id);
      AmongLonger(wave, order, id);
      if id == wave[order[n]] {
        OwnBranchTold(c, w, wave, base, id);
      }
    } else {
      NoneAmong(wave, id);
    }
  }

  lemma NoneAmong(wave: seq<string>, id: string)
    ensures !Among(wave, [], id)
  {
  }

  lemma {:induction false} PendingAt(results: Results, wave: seq<string>, pending: seq<nat>, n: nat, id: string)
    requires n <= |wave|
    ensures var at := PutPending(results, wave, pending, n).at;
            if exists i :: 0 <= i < n && i in pending && wave[i] == id then id in at && at[id] == Branch(Failed, [])
            else (id in at <==> id in results.at) && (id in at ==> at[id] == results.at[id])
  {
    if n > 0 {
      PendingAt(results, wave, pending, n - 1, id);
    }
  }

  /** What the runtime holds of step id: that it failed, its own branch, or nothing. */
  ghost predicate Heard(c: Config, w: World, r: Run, id: string, results: Results) {
    var n := |r.wave|;
    var order := FinishOrder(w, r.ticks, n);
    var collected, done := InTime(w, r.ticks, n), NotPending(w, r.ticks, n);
    if Among(r.wave, order[done..], id) then id in results.at && results.at[id] == Branch(Failed, [])
    else if Among(r.wave, order[..collected], id) then
      id in results.at && OwnBranch(c, w, r.wave, r.orders, id, results.at[id])
    else id !in results.at
  }

  lemma ResultsHeard(c: Config, w: World, r: Run, id: string)
    requires AllKnown(r.wave, Lookup(c.steps))
    ensures Heard(c, w, r, id, Collected(c, w, r.wave, r.orders, r.ticks))
  {
    hide Lookup, Finish, PutPending, FinishOrder, InTime, NotPending, OwnBranch, Among;
    var n := |r.wave|;
    var order, y, d := FinishOrder(w, r.ticks, n), InTime(w, r.ticks, n), NotPending(w, r.ticks, n);
    FinishAt(c, w, r.wave, r.orders, order[..y], id);
    PendingAt(Finish(c, w, r.wave, r.orders, order[..y]).1, r.wave, order[d..], n, id);
    AmongPending(r.wave, order[d..], id);
  }

  lemma AmongPending(wave: seq<string>, pending: seq<nat>, id: string)
    ensures Among(wave, pending, id) <==> exists i :: 0 <= i < |wave| && i in pending && wave[i] == id
  {
    if Among(wave, pending, id) {
      var j :| 0 <= j < |pending| && pending[j] < |wave| && wave[pending[j]] == id;
      assert pending[j] in pending;
    }
  }

  /** Of the step that finishes j-th the runtime holds its branch, or nothing, or that it failed. */
  lemma ResultOf(c: Config, w: World, r: Run, j: nat)
    requires NoDup(r.wave) && AllKnown(r.wave, Lookup(c.steps)) && j < |r.wave|
    ensures var id := r.wave[FinishOrder(w, r.ticks, |r.wave|)[j]];
            var at := Collected(c, w, r.wave, r.orders, r.ticks).at;
            if j < InTime(w, r.ticks, |r.wave|) then id in at && OwnBranch(c, w, r.wave, r.orders, id, at[id])
            else if j < NotPending(w, r.ticks, |r.wave|) then id !in at
            else id in at && at[id] == Branch(Failed, [])
  {
    hide Lookup, Collected, FinishOrder, InTime, NotPending, OwnBranch;
    var n := |r.wave|;
    var order, y, d := FinishOrder(w, r.ticks, n), InTime(w, r.ticks, n), NotPending(w, r.ticks, n);
    var id := r.wave[order[j]];
    ResultsHeard(c, w, r, id);
    assert Among(r.wave, order[..y], id) <==> j < y by {
      if j < y { assert order[..y][j] == order[j]; }
    }
    assert Among(r.wave, order[d..], id) <==> j >= d by {
      if j >= d { assert order[d..][j - d] == order[j]; }
    }
  }

  /** A fan-out whose steps all finish in between ends the run, COMPLETED, whatever the steps returned. */
  lemma NobodyHeard(c: Config, w: World, r: Run)
    requires r.outcome.None? && |r.wave| >= 2 && NoDup(r.wave) && AllKnown(r.wave, Lookup(c.steps))
    requires r.transitions + |r.wave| <= c.maxTransitions && !w.cancelled(r.ticks)
    requires w.timeout(r.ticks, |r.wave|) == (0, |r.wave|)
    ensures WaveStep(c, w, r).outcome == Some(Done(Completed)) && WaveStep(c, w, r).dispatched == r.dispatched + r.wave
  {
    hide Lookup, Finish, FinishOrder, JoinPolicy, Dedup, Single, Collected;
    var results := Collected(c, w, r.wave, r.orders, r.ticks);
    CollectedFacts(c, w, r.wave, r.orders, r.ticks);
    NoResults(c, w, r.wave, r.orders, r.ticks);
    var steps := SubSteps(r.wave, Lookup(c.steps));
    if JoinPolicy(steps, results, Lookup(c.steps)) != [] {
      JoinPolicyMember(steps, results, Lookup(c.steps), JoinPolicy(steps, results, Lookup(c.steps))[0]);
    }
    assert Dedup([]) == [] by { DedupFacts([]); }
  }

  lemma NoResults(c: Config, w: World, wave: seq<string>, base: nat, k: nat)
    requires AllKnown(wave, Lookup(c.steps)) && w.timeout(k, |wave|) == (0, |wave|) && |wave| >= 1
    ensures Collected(c, w, wave, base, k) == NO_RESULTS
  {
    hide Lookup, FinishOrder;
    var order := FinishOrder(w, k, |wave|);
    assert order[..0] == [] && order[|wave|..] == [];
    FinishesNone(c, w, wave, base);
    FinishValid(c, w, wave, base, []);
    PendingFacts(NO_RESULTS, wave, [], |wave|);
  }

  /** A fan-out of which no step has finished when it times out counts as failed altogether, and ends the run FAILED. */
  lemma NobodyFinished(c: Config, w: World, r: Run)
    requires r.outcome.None? && |r.wave| >= 2 && AllKnown(r.wave, Lookup(c.steps))
    requires r.transitions + |r.wave| <= c.maxTransitions && !w.cancelled(r.ticks)
    requires w.timeout(r.ticks, |r.wave|) == (0, 0)
    ensures WaveStep(c, w, r).outcome == Some(Done(Failed))
  {
    hide Lookup, Finish, FinishOrder, JoinPolicy, Dedup, Single, Collected, OwnBranch;
    var results := Collected(c, w, r.wave, r.orders, r.ticks);
    CollectedFacts(c, w, r.wave, r.orders, r.ticks);
    var order := FinishOrder(w, r.ticks, |r.wave|);
    forall id
      ensures id in results.at ==> results.at[id] == Branch(Failed, [])
    {
      ResultsHeard(c, w, r, id);
    }
    var first := r.wave[order[0]];
    assert order[0..] == order && Among(r.wave, order[0..], first);
    ResultsHeard(c, w, r, first);
    assert first in results.at;
    var steps := SubSteps(r.wave, Lookup(c.steps));
    if JoinPolicy(steps, results, Lookup(c.steps)) != [] {
      JoinPolicyMember(steps, results, Lookup(c.steps), JoinPolicy(steps, results, Lookup(c.steps))[0]);
    }
  }
}
