/** On a linear workflow the wave executor and the sequential executor do the same,
    unless a step returns a status that is neither a success, nor a failure, nor a pause. */
module WaveLinear {
  import opened Workflow
  import opened Routing
  import opened WaveRun
  import opened WaveTheorems
  import opened Text

  /** Each success list names the next step; the last one and all error lists are empty. */
  ghost predicate Linear(steps: seq<Step>) {
    && steps != [] && UniqueIds(steps)
    && (forall i :: 0 <= i < |steps| ==>
        steps[i].stepId != "" && !Blank(steps[i].stepId) && Strip(steps[i].stepId) == steps[i].stepId)
    && (forall i :: 0 <= i < |steps| ==> steps[i].onSuccess == Is(SuccessorIds(steps, i)) && steps[i].ErrorIds() == [])
  }

  function SuccessorIds(steps: seq<Step>, i: nat): seq<string>
    requires i < |steps|
  {
    if i + 1 < |steps| then [steps[i + 1].stepId] else []
  }

  /** Statuses that the sequential executor passes over and the wave executor routes to the error list. */
  predicate IsOther(s: Status) {
    s != Completed && s != Failed && s != Cancelled && s != Running
  }

  predicate ReturnsOther(a: Attempt) {
    a.Returns? && IsOther(a.status)
  }

  lemma DedupShort(ids: seq<string>)
    requires |ids| <= 1
    ensures Dedup(ids) == ids
  {
    if |ids| == 1 {
      assert ids[..0] == [];
      assert Dedup(ids[..0]) == [];
      assert ids == [] + [ids[0]];
    }
  }

  lemma ExecuteIgnoresWave(c: Config, w: World, r: Run, step: Step, wave: seq<string>)
    ensures Execute(c, w, r.(wave := wave), step) == (Execute(c, w, r, step).0.(wave := wave), Execute(c, w, r, step).1)
  {
  }

  /** What an iteration of the wave loop makes of the outcome of step k. */
  function AfterStep(steps: seq<Step>, k: nat, r: Run, status: Option<Status>): Run
    requires k < |steps|
  {
    if status == None then Ended(r, Crashed)
    else if status == Some(Running) then Ended(r, Paused)
    else if status == Some(Cancelled) then Ended(r, Done(Cancelled))
    else if status == Some(Failed) then Ended(r, Done(Failed))
    else if status == Some(Completed) && k + 1 < |steps| then r.(ticks := r.ticks + 1, wave := [steps[k + 1].stepId])
    else Ended(r.(ticks := r.ticks + 1, wave := []), Done(Completed))
  }

  lemma NextOnLinear(steps: seq<Step>, k: nat, s: Status)
    requires Linear(steps) && k < |steps|
    ensures NextStepIds(steps[k], s, steps) == if s == Completed then SuccessorIds(steps, k) else []
    ensures Dedup(NextStepIds(steps[k], s, steps)) == NextStepIds(steps[k], s, steps)
    ensures steps[k].stepId in Lookup(steps) && Lookup(steps)[steps[k].stepId] == steps[k]
  {
    hide Lookup, Dedup, UniqueIds, LinearNextStepIds, Blank, Strip;
    LookupUnique(steps, k);
    assert steps[k].onSuccess == Is(SuccessorIds(steps, k)) && steps[k].ErrorIds() == [];
    DedupShort(NextStepIds(steps[k], s, steps));
  }

  lemma SingleOnLinear(c: Config, w: World, r: Run, k: nat)
    requires Linear(c.steps) && k < |c.steps| && r.wave == [c.steps[k].stepId]
    ensures var (r1, status) := Execute(c, w, r, c.steps[k]);
            Single(c, w, r) == AfterStep(c.steps, k, r1, status)
  {
    hide Lookup, Dedup, Linear, Execute, NextStepIds;
    var (r1, status) := Execute(c, w, r, c.steps[k]);
    NextOnLinear(c.steps, k, if status.Some? then status.value else Failed);
  }

  /** The wave run stands before step k, which is its next wave. */
  predicate AtStep(steps: seq<Step>, wave: Run, k: nat) {
    && k < |steps| && wave.wave == [steps[k].stepId]
    && wave.ticks == wave.orders == wave.transitions == |wave.dispatched| == k
  }

  /** Both runs stand before step k, or both have ended in the same way. */
  ghost predicate InStep(steps: seq<Step>, wave: Run, sequential: Run, k: nat) {
    && wave == sequential.(wave := wave.wave) && |wave.dispatched| <= k
    && (wave.outcome.None? ==> AtStep(steps, wave, k))
  }

  /** Everything the runs can be compared on. */
  ghost predicate SameRun(a: Run, b: Run) {
    a.transitions == b.transitions && a.orders == b.orders && a.rows == b.rows
    && a.dispatched == b.dispatched && a.outcome == b.outcome
  }

  lemma ExecuteCounts(c: Config, w: World, r: Run, step: Step)
    ensures var (r1, status) := Execute(c, w, r, step);
            && r1.orders == r.orders + 1 && r1.transitions == r.transitions + 1 && r1.ticks == r.ticks
            && r1.wave == r.wave && r1.outcome == r.outcome
            && (r1.dispatched == r.dispatched + [step.stepId]
                || (r1.dispatched == r.dispatched && status == Some(Failed)))
            && (r1.dispatched != r.dispatched ==>
                  (status.Some? && IsOther(status.value) <==> ReturnsOther(w.attempt(r.orders + 1, step.stepId))))
  {
  }

  /** Before the last step the runs stay in step, unless this step returns another status:
      the wave run then ends, completed, while the sequential run goes on. */
  lemma Advance(c: Config, w: World, wave: Run, sequential: Run, k: nat)
    requires Linear(c.steps) && InStep(c.steps, wave, sequential, k) && wave.outcome.None? && k + 1 < |c.steps|
    ensures var wave', sequential' := WaveStep(c, w, wave), SequentialStep(c, w, sequential);
            var odd := |wave'.dispatched| == k + 1 && ReturnsOther(w.attempt(k + 1, c.steps[k].stepId));
            && (!odd ==> InStep(c.steps, wave', sequential', k + 1))
            && (odd ==>
                wave'.outcome == Some(Done(Completed)) && sequential'.outcome == None
                && sequential'.ticks == k + 1 && |sequential'.dispatched| == k + 1)
  {
    hide Execute, Single, FanOut, Linear;
    SingleOnLinear(c, w, wave, k);
    ExecuteIgnoresWave(c, w, sequential, c.steps[k], wave.wave);
    ExecuteCounts(c, w, wave, c.steps[k]);
  }

  lemma LastStep(c: Config, w: World, wave: Run, sequential: Run, k: nat)
    requires Linear(c.steps) && InStep(c.steps, wave, sequential, k) && wave.outcome.None? && k + 1 == |c.steps|
    ensures var wave' := WaveStep(c, w, wave);
            SameRun(wave', SequentialStep(c, w, SequentialStep(c, w, sequential))) && wave'.outcome.Some?
  {
    hide Execute, Single, FanOut, Linear;
    SingleOnLinear(c, w, wave, k);
    ExecuteIgnoresWave(c, w, sequential, c.steps[k], wave.wave);
    ExecuteCounts(c, w, wave, c.steps[k]);
  }

  function WaveAt(c: Config, w: World, k: nat): Run
    requires c.steps != []
  {
    After(c, w, Start([c.steps[0].stepId]), k)
  }

  function SequentialAt(c: Config, w: World, k: nat): Run {
    SequentialAfter(c, w, Start([]), k)
  }

  lemma SequentialEnded(c: Config, w: World, r: Run)
    requires r.outcome.Some?
    ensures SequentialStep(c, w, r) == r
  {
  }

  predicate Proceeds(a: Attempt) {
    a == Skips || a == Returns(Completed)
  }

  /** Nothing stops a run before step k: no cancellation, every earlier step completes, the cap allows it. */
  ghost predicate Clear(c: Config, w: World, k: nat)
    requires k <= |c.steps|
  {
    && k <= c.maxTransitions && (forall t :: 0 <= t < k ==> !w.cancelled(t))
    && (forall t :: 0 <= t < k ==> Proceeds(w.attempt(t + 1, c.steps[t].stepId)))
  }

  /** Step i is not the last one, nothing keeps a run from attempting it, and it returns another status. */
  ghost predicate OddStep(c: Config, w: World, i: nat) {
    && i + 1 < |c.steps| && Clear(c, w, i) && i < c.maxTransitions && !w.cancelled(i)
    && ReturnsOther(w.attempt(i + 1, c.steps[i].stepId))
  }

  /** The runs part at step j: the wave run ends, completed, and the sequential run goes on. */
  ghost predicate Parted(c: Config, w: World, j: nat)
    requires c.steps != []
  {
    && j + 1 < |c.steps|
    && WaveAt(c, w, j + 1).outcome == Some(Done(Completed)) && |WaveAt(c, w, j + 1).dispatched| == j + 1
    && SequentialAt(c, w, j + 1).outcome == None && SequentialAt(c, w, j + 1).ticks == j + 1
    && |SequentialAt(c, w, j + 1).dispatched| == j + 1
  }

  lemma NextRuns(c: Config, w: World, k: nat)
    requires c.steps != []
    ensures WaveAt(c, w, k + 1) == WaveStep(c, w, WaveAt(c, w, k))
    ensures SequentialAt(c, w, k + 1) == SequentialStep(c, w, SequentialAt(c, w, k))
  {
    hide WaveStep, SequentialStep;
  }

  /** What an iteration on step k needs to attempt it, and to go on after it. */
  lemma Attempted(c: Config, w: World, wave: Run, sequential: Run, k: nat)
    requires Linear(c.steps) && k < |c.steps| && InStep(c.steps, wave, sequential, k) && wave.outcome.None?
    ensures var wave' := WaveStep(c, w, wave);
            && (|wave'.dispatched| == k + 1 <==> !w.cancelled(k) && k < c.maxTransitions)
            && (k + 1 < |c.steps| ==> (wave'.outcome.None? <==>
                  !w.cancelled(k) && k < c.maxTransitions && Proceeds(w.attempt(k + 1, c.steps[k].stepId))))
  {
    hide Single, FanOut, Linear;
    SingleOnLinear(c, w, wave, k);
  }

  /** A run that has not ended before step k had nothing to stop it, and the runs are in step there. */
  lemma {:induction false} ClearSoFar(c: Config, w: World, k: nat)
    requires Linear(c.steps) && k < |c.steps| && WaveAt(c, w, k).outcome.None?
    ensures Clear(c, w, k) && InStep(c.steps, WaveAt(c, w, k), SequentialAt(c, w, k), k)
  {
    hide Linear, WaveStep, SequentialStep;
    if k > 0 {
      NextRuns(c, w, k - 1);
      var wave, sequential := WaveAt(c, w, k - 1), SequentialAt(c, w, k - 1);
      if wave.outcome.Some? {
        EndedStep(c, w, wave);
      }
      ClearSoFar(c, w, k - 1);
      hide InStep, After, SequentialAfter;
      Attempted(c, w, wave, sequential, k - 1);
      Advance(c, w, wave, sequential, k - 1);
    }
  }

  /** Conversely, with nothing to stop it the run reaches step k. */
  lemma {:induction false} StillGoing(c: Config, w: World, k: nat)
    requires Linear(c.steps) && k < |c.steps| && Clear(c, w, k)
    ensures WaveAt(c, w, k).outcome.None?
  {
    hide Linear, WaveStep, SequentialStep, InStep;
    if k > 0 {
      NextRuns(c, w, k - 1);
      StillGoing(c, w, k - 1);
      ClearSoFar(c, w, k - 1);
      hide After;
      Attempted(c, w, WaveAt(c, w, k - 1), SequentialAt(c, w, k - 1), k - 1);
    }
  }

  /** Without an odd step the runs never part and end alike. */
  lemma {:induction false} NeverParted(c: Config, w: World, k: nat)
    requires Linear(c.steps) && k < |c.steps| && forall i: nat :: !OddStep(c, w, i)
    ensures InStep(c.steps, WaveAt(c, w, k), SequentialAt(c, w, k), k)
  {
    hide Linear, WaveStep, SequentialStep;
    if k > 0 {
      NeverParted(c, w, k - 1);
      NextRuns(c, w, k - 1);
      var wave, sequential := WaveAt(c, w, k - 1), SequentialAt(c, w, k - 1);
      if wave.outcome.Some? {
        hide After, SequentialAfter;
        EndedStep(c, w, wave);
        SequentialEnded(c, w, sequential);
      } else {
        ClearSoFar(c, w, k - 1);
        hide InStep, After, SequentialAfter;
        Attempted(c, w, wave, sequential, k - 1);
        Advance(c, w, wave, sequential, k - 1);
        assert !OddStep(c, w, k - 1);
      }
    }
  }

  lemma LinearNonEmpty(steps: seq<Step>)
    requires Linear(steps)
    ensures |steps| > 0
  {
  }

  lemma AgreeWithoutOddSteps(c: Config, w: World)
    requires Linear(c.steps) && forall i: nat :: !OddStep(c, w, i)
    ensures SameRun(WaveAt(c, w, |c.steps|), SequentialAt(c, w, |c.steps| + 1)) && WaveAt(c, w, |c.steps|).outcome.Some?
  {
    hide Linear, WaveStep, SequentialStep, WaveAt, SequentialAt, OddStep;
    LinearNonEmpty(c.steps);
    var n := |c.steps|;
    NeverParted(c, w, n - 1);
    NextRuns(c, w, n - 1);
    NextRuns(c, w, n);
    var wave, sequential := WaveAt(c, w, n - 1), SequentialAt(c, w, n - 1);
    if wave.outcome.Some? {
      EndedStep(c, w, wave);
      SequentialEnded(c, w, sequential);
    } else {
      LastStep(c, w, wave, sequential, n - 1);
    }
  }

  // ---------- the converse ----------

  /** Past the parting the sequential run attempts one more step or does not complete. */
  ghost predicate WentOn(r: Run, j: nat) {
    |r.dispatched| >= j + 2 || (r.outcome.Some? && r.outcome != Some(Done(Completed)))
  }

  lemma SequentialGoesOn(c: Config, w: World, r: Run, j: nat)
    requires WentOn(r, j) || (r.outcome.None? && r.ticks == j + 1 < |c.steps| && |r.dispatched| == j + 1)
    ensures WentOn(SequentialStep(c, w, r), j)
  {
    hide Execute;
    if r.outcome.None? && r.ticks < |c.steps| {
      ExecuteCounts(c, w, r, c.steps[r.ticks]);
    }
  }

  lemma {:induction false} SequentialWentOn(c: Config, w: World, j: nat, k: nat)
    requires c.steps != [] && Parted(c, w, j) && k >= j + 2
    ensures WentOn(SequentialAt(c, w, k), j)
  {
    hide WentOn, SequentialStep, WaveAt, WaveStep;
    NextRuns(c, w, k - 1);
    if k > j + 2 {
      SequentialWentOn(c, w, j, k - 1);
    }
    SequentialGoesOn(c, w, SequentialAt(c, w, k - 1), j);
  }

  lemma OddStepParts(c: Config, w: World, i: nat)
    requires Linear(c.steps) && OddStep(c, w, i)
    ensures Parted(c, w, i)
  {
    hide Linear, WaveStep, SequentialStep, ReturnsOther, InStep;
    StillGoing(c, w, i);
    ClearSoFar(c, w, i);
    NextRuns(c, w, i);
    hide After, SequentialAfter;
    Attempted(c, w, WaveAt(c, w, i), SequentialAt(c, w, i), i);
    Advance(c, w, WaveAt(c, w, i), SequentialAt(c, w, i), i);
  }

  lemma OddStepDisagrees(c: Config, w: World, i: nat)
    requires Linear(c.steps) && OddStep(c, w, i)
    ensures !SameRun(WaveAt(c, w, |c.steps|), SequentialAt(c, w, |c.steps| + 1))
  {
    hide Linear, WaveStep, SequentialStep, OddStep, After, SequentialAfter;
    OddStepParts(c, w, i);
    SequentialWentOn(c, w, i, |c.steps| + 1);
    EndedLater(c, w, Start([c.steps[0].stepId]), i + 1, |c.steps|);
  }

  /** The two executors do the same on a linear workflow (same attempts, same rows, same outcome, both ended)
      exactly when there is no step before the last that a run gets to attempt and that returns another
      status. */
  lemma LinearRunsAgree(c: Config, w: World)
    requires Linear(c.steps)
    ensures (SameRun(WaveAt(c, w, |c.steps|), SequentialAt(c, w, |c.steps| + 1))
             && WaveAt(c, w, |c.steps|).outcome.Some?)
            <==> forall i: nat :: !OddStep(c, w, i)
  {
    hide Linear, OddStep, WaveAt, SequentialAt, SameRun;
    if i: nat :| OddStep(c, w, i) {
      OddStepDisagrees(c, w, i);
    } else {
      AgreeWithoutOddSteps(c, w);
    }
  }

  // ---------- the wave executor starts a linear workflow at its first step ----------

  ghost predicate IsLater(steps: seq<Step>, t: string) {
    exists i :: 1 <= i < |steps| && steps[i].stepId == t
  }

  lemma LaterIsTarget(steps: seq<Step>, i: nat)
    requires Linear(steps) && 1 <= i < |steps|
    ensures steps[i].stepId in StrippedTargets(steps)
  {
    hide Blank, Strip, UniqueIds;
    assert steps[i - 1].onSuccess == Is(SuccessorIds(steps, i - 1));
    assert steps[i].stepId in steps[i - 1].SuccessIds() + steps[i - 1].ErrorIds();
  }

  lemma TargetIsLater(steps: seq<Step>, t: string)
    requires Linear(steps) && t in StrippedTargets(steps)
    ensures IsLater(steps, t)
  {
    hide Blank, Strip, UniqueIds;
    var i, u :| 0 <= i < |steps| && u in steps[i].SuccessIds() + steps[i].ErrorIds() && !Blank(u) && Strip(u) == t;
    assert steps[i].onSuccess == Is(SuccessorIds(steps, i)) && steps[i].ErrorIds() == [];
    assert u in SuccessorIds(steps, i);
    assert steps[i + 1].stepId == u;
  }

  lemma LinearTargets(steps: seq<Step>)
    requires Linear(steps)
    ensures forall t :: t in StrippedTargets(steps) <==> IsLater(steps, t)
  {
    hide Linear, StrippedTargets;
    forall t
      ensures t in StrippedTargets(steps) <==> IsLater(steps, t)
    {
      if t in StrippedTargets(steps) {
        TargetIsLater(steps, t);
      }
      if i :| 1 <= i < |steps| && steps[i].stepId == t {
        LaterIsTarget(steps, i);
      }
    }
  }

  lemma FirstIsEntry(steps: seq<Step>)
    requires Linear(steps)
    ensures |steps| >= 1 && steps[0].stepId !in StrippedTargets(steps) && !Blank(steps[0].stepId)
    ensures forall i :: 1 <= i < |steps| ==> steps[i].stepId in StrippedTargets(steps)
  {
    LinearTargets(steps);
    hide Blank, Strip, StrippedTargets;
  }

  lemma {:induction false} LinearEntries(steps: seq<Step>, k: nat)
    requires Linear(steps) && 1 <= k <= |steps|
    ensures EntriesAmong(steps[..k], StrippedTargets(steps)) == [steps[0].stepId]
  {
    hide Blank, Strip, StrippedTargets, Linear;
    FirstIsEntry(steps);
    assert steps[..k][..k - 1] == steps[..k - 1];
    if k == 1 {
      assert steps[..0] == [];
      assert EntriesAmong(steps[..0], StrippedTargets(steps)) == [];
    } else {
      LinearEntries(steps, k - 1);
    }
  }

  lemma LinearEntryIds(steps: seq<Step>)
    requires Linear(steps)
    ensures EntryStepIds(steps) == [steps[0].stepId]
  {
    hide Blank, Strip, StrippedTargets, EntriesAmong, Linear;
    FirstIsEntry(steps);
    LinearEntries(steps, |steps|);
    assert steps[..|steps|] == steps;
    if |steps| == 1 {
      assert steps[..0] == [] && FirstListed(steps[..0], [steps[0].stepId]) == None;
    } else {
      assert steps[1].stepId in StrippedTargets(steps);
    }
  }

  lemma LinearStartsFirst(steps: seq<Step>)
    requires Linear(steps)
    ensures InitialWave(steps, []) == Some([steps[0].stepId])
  {
    LinearEntryIds(steps);
    LookupUnique(steps, 0);
    hide EntryStepIds, Lookup, Blank, Strip, UniqueIds, FirstByOrder;
    var ids := [steps[0].stepId];
    assert ids[..0] == [] && Known(ids[..0], Lookup(steps)) == [];
    assert Known(ids, Lookup(steps)) == ids;
  }
}
