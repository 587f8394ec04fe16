/** What one iteration of either executor does, said of what the attempted steps do. */
module WaveOutcomes {
  import opened Workflow
  import opened Routing
  import opened WaveRun
  import opened WaveTheorems

  /** The run as it goes on to these steps: each once, the run completed when there are none. */
  ghost predicate GoesOnWith(r: Run, r': Run, ids: seq<string>) {
    if ids == [] then r' == r.(ticks := r.ticks + 1, wave := [], outcome := Some(Done(Completed)))
    else
      && r' == r.(ticks := r.ticks + 1, wave := r'.wave)
      && NoDup(r'.wave) && (forall id :: id in r'.wave <==> id in ids) && KeepsOrder(ids, r'.wave)
  }

  /** A failed step ends the run unless its error list names a step. */
  ghost predicate FailsOn(r: Run, r': Run, errors: seq<string>) {
    if errors == [] then r' == r.(outcome := Some(Done(Failed))) else GoesOnWith(r, r', errors)
  }

  lemma ContinueGoesOn(r: Run, ids: seq<string>)
    ensures GoesOnWith(r, Continue(r.(ticks := r.ticks + 1), ids), ids)
  {
    hide Dedup;
    DedupFacts(ids);
    DedupOrder(ids);
    if ids != [] {
      assert ids[0] in Dedup(ids);
    }
  }

  // ---------- where a completed step leads ----------

  /** Step i has an id and comes later by order. */
  predicate ComesLater(steps: seq<Step>, order: int, i: int) {
    0 <= i < |steps| && steps[i].order > order && steps[i].stepId != ""
  }

  /** No step that comes later has a lower order, and none of the same order stands before it in the list. */
  predicate ComesNext(steps: seq<Step>, order: int, i: int) {
    && ComesLater(steps, order, i)
    && forall j :: 0 <= j < |steps| && ComesLater(steps, order, j) ==>
        steps[i].order < steps[j].order || (steps[i].order == steps[j].order && i <= j)
  }

  /** A completed step leads to its success list, or to the next step by order when that key is missing. */
  ghost predicate CompletedLeads(steps: seq<Step>, s: Step, ids: seq<string>) {
    match s.onSuccess
    case Is(list) => ids == list
    case Null => ids == []
    case Missing =>
      if ids == [] then forall i :: !ComesLater(steps, s.order, i)
      else exists i :: ComesNext(steps, s.order, i) && ids == [steps[i].stepId]
  }

  function ErrorList(s: Step): seq<string> {
    match s.onError
    case Is(list) => list
    case _ => []
  }

  /** The steps that come later, and the first of them; the last step of the list may change both. */
  lemma LastLater(order: int, steps: seq<Step>)
    requires steps != []
    ensures var n := |steps| - 1;
            var init := Later(order, steps[..n]);
            Later(order, steps) == if ComesLater(steps, order, n) then init + [steps[n]] else init
    ensures forall i :: 0 <= i < |steps| - 1 ==>
      ComesLater(steps, order, i) == ComesLater(steps[..|steps| - 1], order, i)
  {
  }

  lemma FirstOfLonger(steps: seq<Step>, s: Step)
    ensures FirstByOrder(steps + [s]) ==
            if steps == [] || s.order < FirstByOrder(steps).order then s else FirstByOrder(steps)
  {
    assert (steps + [s])[..|steps|] == steps;
  }

  lemma {:induction false} FirstLater(order: int, steps: seq<Step>)
    ensures var later := Later(order, steps);
            if later == [] then forall i :: !ComesLater(steps, order, i)
            else exists i :: ComesNext(steps, order, i) && FirstByOrder(later) == steps[i]
  {
    hide Later, FirstByOrder;
    if steps == [] {
      assert Later(order, steps) == [] by { NoneLater(order); }
    } else {
      var n := |steps| - 1;
      var init := Later(order, steps[..n]);
      FirstLater(order, steps[..n]);
      LastLater(order, steps);
      FirstOfLonger(init, steps[n]);
      if init == [] {
        if ComesLater(steps, order, n) {
          assert ComesNext(steps, order, n);
        }
      } else {
        var i :| ComesNext(steps[..n], order, i) && FirstByOrder(init) == steps[..n][i];
        var first := if ComesLater(steps, order, n) && steps[n].order < steps[i].order then n else i;
        assert ComesNext(steps, order, first);
      }
    }
  }

  lemma NoneLater(order: int)
    ensures Later(order, []) == []
  {
  }

  lemma NextTells(steps: seq<Step>, s: Step, outcome: Status)
    ensures var ids := NextStepIds(s, outcome, steps);
            if outcome == Completed then CompletedLeads(steps, s, ids) else ids == ErrorList(s)
  {
    hide Later, FirstByOrder;
    FirstLater(s.order, steps);
  }

  // ---------- a wave of one step ----------

  /** What becomes of a run whose step u is attempted alone. */
  ghost predicate AloneTells(c: Config, w: World, r: Run, r': Run)
    requires |r.wave| == 1 && r.wave[0] in Lookup(c.steps)
  {
    var u, o := r.wave[0], r.orders + 1;
    var s := Lookup(c.steps)[u];
    var counted := r.(transitions := r.transitions + 1, orders := o);
    if r.transitions >= c.maxTransitions then FailsOn(counted, r', ErrorList(s)) else
    var tried := counted.(dispatched := r.dispatched + [u]);
    var written := tried.(rows := r.rows + [Row(o, u)]);
    match w.attempt(o, u)
    case Skips => exists ids :: CompletedLeads(c.steps, s, ids) && GoesOnWith(written, r', ids)
    case Waits => r' == written.(outcome := Some(Paused))
    case NoHandler => r' == tried.(outcome := Some(Crashed))
    case Throws => r' == tried.(outcome := Some(Crashed))
    case Breaks => r' == written.(outcome := Some(Crashed))
    case Returns(status) =>
      match status
      case Completed => exists ids :: CompletedLeads(c.steps, s, ids) && GoesOnWith(written, r', ids)
      case Running => r' == written.(outcome := Some(Paused))
      case Cancelled => r' == written.(outcome := Some(Done(Cancelled)))
      case Failed => FailsOn(written, r', ErrorList(s))
      case _ => GoesOnWith(written, r', ErrorList(s))
  }

  /** What an iteration makes of a wave of one step. */
  lemma OneStepTells(c: Config, w: World, r: Run)
    requires r.outcome.None? && |r.wave| == 1
    ensures var r' := WaveStep(c, w, r);
            if w.cancelled(r.ticks) then r' == r.(outcome := Some(Done(Cancelled)))
            else if r.wave[0] !in Lookup(c.steps) then r' == r.(outcome := Some(Done(Failed)))
            else AloneTells(c, w, r, r')
  {
    hide Lookup, Dedup, NextStepIds, CompletedLeads, GoesOnWith, ErrorList;
    var r' := WaveStep(c, w, r);
    if !w.cancelled(r.ticks) && r.wave[0] in Lookup(c.steps) {
      LookupSound(c.steps);
      var s := Lookup(c.steps)[r.wave[0]];
      var (r1, status) := Execute(c, w, r, s);
      if status.Some? {
        var ids := NextStepIds(s, status.value, c.steps);
        NextTells(c.steps, s, status.value);
        ContinueGoesOn(r1, ids);
      }
    }
  }

  /** An empty wave completes the run, unless it has ended already. */
  lemma NoStepTells(c: Config, w: World, r: Run)
    ensures r.outcome.Some? ==> WaveStep(c, w, r) == r
    ensures r.outcome.None? && r.wave == [] ==> WaveStep(c, w, r) == r.(outcome := Some(Done(Completed)))
  {
  }

  // ---------- the sequential executor ----------

  ghost predicate InOrderTells(c: Config, w: World, r: Run, r': Run)
    requires r.ticks < |c.steps|
  {
    var s, o := c.steps[r.ticks], r.orders + 1;
    var counted := r.(transitions := r.transitions + 1, orders := o);
    if r.transitions >= c.maxTransitions then r' == counted.(outcome := Some(Done(Failed))) else
    var tried := counted.(dispatched := r.dispatched + [s.stepId]);
    var written := tried.(rows := r.rows + [Row(o, s.stepId)]);
    match w.attempt(o, s.stepId)
    case Skips => r' == written.(ticks := r.ticks + 1)
    case Waits => r' == written.(outcome := Some(Paused))
    case NoHandler => r' == tried.(outcome := Some(Crashed))
    case Throws => r' == tried.(outcome := Some(Crashed))
    case Breaks => r' == written.(outcome := Some(Crashed))
    case Returns(status) =>
      match status
      case Running => r' == written.(outcome := Some(Paused))
      case Cancelled => r' == written.(outcome := Some(Done(Cancelled)))
      case Failed => r' == written.(outcome := Some(Done(Failed)))
      case _ => r' == written.(ticks := r.ticks + 1)
  }

  /** What an iteration of the sequential executor makes of the next step in list order. */
  lemma NextInOrderTells(c: Config, w: World, r: Run)
    ensures var r' := SequentialStep(c, w, r);
            if r.outcome.Some? then r' == r
            else if r.ticks >= |c.steps| then r' == r.(outcome := Some(Done(Completed)))
            else if w.cancelled(r.ticks) then r' == r.(outcome := Some(Done(Cancelled)))
            else InOrderTells(c, w, r, r')
  {
  }

  // ---------- pauses ----------

  predicate Pausing(a: Attempt) {
    a == Waits || a == Returns(Running)
  }

  /** The run is about to attempt a step alone that waits. */
  predicate PausesAt(c: Config, w: World, r: Run) {
    && r.outcome.None? && |r.wave| == 1 && r.wave[0] in Lookup(c.steps) && !w.cancelled(r.ticks)
    && r.transitions < c.maxTransitions && Pausing(w.attempt(r.orders + 1, r.wave[0]))
  }

  lemma FanOutNeverPauses(c: Config, w: World, r: Run)
    requires r.outcome.None?
    ensures FanOut(c, w, r).outcome != Some(Paused)
  {
    hide Lookup, Dedup, JoinPolicy, Finish, FinishOrder, Collected, HasStatus;
  }

  lemma StepPausesIff(c: Config, w: World, r: Run)
    ensures WaveStep(c, w, r).outcome == Some(Paused) <==> r.outcome == Some(Paused) || PausesAt(c, w, r)
    ensures PausesAt(c, w, r) ==> WaveStep(c, w, r).dispatched == r.dispatched + r.wave
  {
    hide Lookup, FanOut, CompletedLeads, ErrorList, KeepsOrder, WaveStep, NoDup;
    NoStepTells(c, w, r);
    if r.outcome.None? && |r.wave| == 1 {
      OneStepTells(c, w, r);
    } else if r.outcome.None? && r.wave != [] {
      ManyPause(c, w, r);
    }
  }

  lemma ManyPause(c: Config, w: World, r: Run)
    requires r.outcome.None? && |r.wave| >= 2
    ensures WaveStep(c, w, r).outcome != Some(Paused)
  {
    hide FanOut, Single;
    FanOutNeverPauses(c, w, r);
  }

  /** In its j-th iteration the run attempted, alone, a step that waited, and r dispatched nothing after it. */
  predicate PausedBy(c: Config, w: World, wave: seq<string>, r: Run, j: nat) {
    var before := After(c, w, Start(wave), j);
    PausesAt(c, w, before) && r.dispatched == before.dispatched + before.wave
  }

  /** A run ends paused exactly when the last step it dispatched was alone in its wave and waited: its gate did, or it
      returned RUNNING. */
  lemma {:induction false} PausedIff(c: Config, w: World, wave: seq<string>, k: nat)
    ensures var r := After(c, w, Start(wave), k);
            r.outcome == Some(Paused) <==> exists j: nat :: j < k && PausedBy(c, w, wave, r, j)
  {
    hide WaveStep, PausesAt;
    if k > 0 {
      PausedIff(c, w, wave, k - 1);
      var before, r := After(c, w, Start(wave), k - 1), After(c, w, Start(wave), k);
      StepPausesIff(c, w, before);
      if before.outcome.Some? {
        EndedStep(c, w, before);
      } else if r.outcome == Some(Paused) {
        assert PausedBy(c, w, wave, r, k - 1);
      }
      if j: nat :| j < k && PausedBy(c, w, wave, r, j) {
        PauseLasts(c, w, wave, j, k);
      }
    }
  }

  lemma PauseLasts(c: Config, w: World, wave: seq<string>, j: nat, k: nat)
    requires j < k && PausesAt(c, w, After(c, w, Start(wave), j))
    ensures After(c, w, Start(wave), k).outcome == Some(Paused)
  {
    hide WaveStep, PausesAt;
    StepPausesIff(c, w, After(c, w, Start(wave), j));
    EndedLater(c, w, Start(wave), j + 1, k);
  }

  // ---------- pauses of the sequential executor ----------

  predicate PausesInOrder(c: Config, w: World, r: Run) {
    && r.outcome.None? && r.ticks < |c.steps| && !w.cancelled(r.ticks)
    && r.transitions < c.maxTransitions && Pausing(w.attempt(r.orders + 1, c.steps[r.ticks].stepId))
  }

  lemma InOrderPausesIff(c: Config, w: World, r: Run)
    ensures SequentialStep(c, w, r).outcome == Some(Paused) <==> r.outcome == Some(Paused) || PausesInOrder(c, w, r)
    ensures r.outcome.Some? ==> SequentialStep(c, w, r) == r
  {
    hide SequentialStep;
    NextInOrderTells(c, w, r);
  }

  /** A sequential run ends paused exactly when a step it came to waited. */
  lemma {:induction false} SequentialPausedIff(c: Config, w: World, k: nat)
    ensures SequentialAfter(c, w, Start([]), k).outcome == Some(Paused) <==>
      exists j: nat :: j < k && PausesInOrder(c, w, SequentialAfter(c, w, Start([]), j))
  {
    hide SequentialStep, PausesInOrder;
    if k > 0 {
      SequentialPausedIff(c, w, k - 1);
      var before := SequentialAfter(c, w, Start([]), k - 1);
      InOrderPausesIff(c, w, before);
      if before.outcome == Some(Paused) {
        var j: nat :| j < k - 1 && PausesInOrder(c, w, SequentialAfter(c, w, Start([]), j));
        assert j < k;
      }
    }
  }
}
