/** The runtime object: its counters are fields, its loops run one wave or one step at a time. */
module WaveExecutor {
  import opened Digraph
  import opened Workflow
  import opened Routing
  import opened WaveRun
  import opened WaveTheorems
  import opened WaveTermination
  import opened WaveLinear

  class ContainerWorkflowRuntime {
    const config: Config
    const world: World
    const lookup: map<string, Step>
    var transitionCount: nat
    var stepOrderCounter: nat
    var resumeWave: seq<string>
    /** Loop iterations so far. */
    var ticks: nat
    /** The ExecutionStep rows written so far. */
    var rows: seq<Row>
    /** The steps attempted so far. */
    var dispatched: seq<string>

    ghost predicate Valid()
      reads this
    {
      lookup == Lookup(config.steps)
    }

    ghost function State(wave: seq<string>): Run
      reads this
    {
      Run(wave, ticks, transitionCount, stepOrderCounter, rows, dispatched, None)
    }

    constructor (config: Config, world: World)
      ensures Valid() && this.config == config && this.world == world
      ensures State([]) == Start([]) && resumeWave == []
    {
      this.config := config;
      this.world := world;
      lookup := Lookup(config.steps);
      transitionCount, stepOrderCounter, ticks := 0, 0, 0;
      resumeWave, rows, dispatched := [], [], [];
    }

    /** One step outside a fan-out. */
    method ExecuteStep(step: Step, ghost wave: seq<string>) returns (status: Option<Status>)
      requires Valid()
      modifies `transitionCount, `stepOrderCounter, `rows, `dispatched
      ensures Execute(config, world, old(State(wave)), step) == (State(wave), status)
    {
      stepOrderCounter := stepOrderCounter + 1;
      transitionCount := transitionCount + 1;
      if transitionCount > config.maxTransitions {
        return Some(Failed);
      }
      dispatched := dispatched + [step.stepId];
      var attempt := world.attempt(stepOrderCounter, step.stepId);
      rows := rows + if WritesRow(attempt) then [Row(stepOrderCounter, step.stepId)] else [];
      match attempt {
        case Skips => status := Some(Completed);
        case Waits => status := Some(Running);
        case Returns(s) => status := Some(s);
        case NoHandler => status := None;
        case Throws => status := None;
        case Breaks => status := None;
      }
    }

    /** The step orders a fan-out reserves before its steps start. */
    method Preallocate(wave: seq<string>) returns (reserved: map<string, nat>)
      requires Valid()
      modifies `stepOrderCounter
      ensures stepOrderCounter == old(stepOrderCounter) + |wave|
      ensures forall id :: id in reserved <==> id in wave
      ensures forall id :: id in wave ==> reserved[id] == Allocated(wave, old(stepOrderCounter), id)
    {
      reserved := map[];
      for i := 0 to |wave|
        invariant stepOrderCounter == old(stepOrderCounter) + i
        invariant forall id :: id in reserved <==> id in wave[..i]
        invariant forall id :: id in wave[..i] ==> reserved[id] == Allocated(wave[..i], old(stepOrderCounter), id)
      {
        assert wave[..i + 1] == wave[..i] + [wave[i]];
        stepOrderCounter := stepOrderCounter + 1;
        reserved := reserved[wave[i] := stepOrderCounter];
      }
      assert wave[..|wave|] == wave;
    }

    /** The parallel part of a fan-out: the steps finish in the order the world chooses. */
    method RunParallel(wave: seq<string>, reserved: map<string, nat>, ghost base: nat) returns (results: Results)
      requires Valid() && AllKnown(wave, lookup)
      requires forall id :: id in wave ==> id in reserved && reserved[id] == Allocated(wave, base, id)
      modifies `rows
      ensures rows == old(rows) + Finish(config, world, wave, base, FinishOrder(world, ticks, |wave|)).0
      ensures results == Collected(config, world, wave, base, ticks)
    {
      hide FinishOrder, Allocated, ParallelBranch, Lookup, Finish, InTime, NotPending, PutPending;
      FinishesNone(config, world, wave, base);
      var order := FinishOrder(world, ticks, |wave|);
      var collected := InTime(world, ticks, |wave|);
      results := NO_RESULTS;
      for i := 0 to |order|
        invariant rows == old(rows) + Finish(config, world, wave, base, order[..i]).0
        invariant results == Finish(config, world, wave, base, order[..if i < collected then i else collected]).1
      {
        FinishesOne(config, world, wave, base, order, i);
        var id := wave[order[i]];
        var attempt := world.attempt(reserved[id], id);
        if WritesRow(attempt) {
          rows := rows + [Row(reserved[id], id)];
        }
        if i < collected {
          results := results.Put(id, ParallelBranch(config, attempt, lookup[id]));
        }
      }
      assert order[..|order|] == order;
      var pending := order[NotPending(world, ticks, |wave|)..];
      ghost var inTime := results;
      NothingPending(inTime, wave, pending);
      for i := 0 to |wave|
        invariant results == PutPending(inTime, wave, pending, i)
        invariant rows == old(rows) + Finish(config, world, wave, base, order).0
      {
        OnePending(inTime, wave, pending, i);
        if i in pending {
          results := results.Put(wave[i], Branch(Failed, []));
        }
      }
    }

    /** Some(o): the run ends with o. None: next holds the next steps. */
    method ExecuteFanOut(wave: seq<string>) returns (outcome: Option<Outcome>, next: seq<string>)
      requires Valid()
      modifies `transitionCount, `stepOrderCounter, `rows, `dispatched, `ticks
      ensures FanOut(config, world, old(State(wave))) ==
              if outcome.Some? then Ended(State(wave), outcome.value) else Continue(State(wave), next)
    {
      hide Lookup, Finish, JoinPolicy, HasStatus, Dedup, FinishOrder, Collected;
      next := [];
      if !AllKnown(wave, lookup) {
        return Some(Done(Failed)), [];
      }
      ghost var base := stepOrderCounter;
      var reserved := Preallocate(wave);
      transitionCount := transitionCount + |wave|;
      if transitionCount > config.maxTransitions {
        return Some(Done(Failed)), [];
      }
      dispatched := dispatched + wave;
      var results := RunParallel(wave, reserved, base);
      CollectedFacts(config, world, wave, base, ticks);
      ticks := ticks + 1;
      if HasStatus(results, Cancelled) {
        return Some(Done(Cancelled)), [];
      }
      next := ApplyJoinPolicy(SubSteps(wave, lookup), results, lookup);
      if next == [] && HasStatus(results, Failed) {
        return Some(Done(Failed)), [];
      }
      outcome := None;
    }

    /** A wave of one step. */
    method ExecuteSingle(wave: seq<string>) returns (outcome: Option<Outcome>, next: seq<string>)
      requires Valid() && |wave| == 1
      modifies `transitionCount, `stepOrderCounter, `rows, `dispatched, `ticks
      ensures Single(config, world, old(State(wave))) ==
              if outcome.Some? then Ended(State(wave), outcome.value) else Continue(State(wave), next)
    {
      next := [];
      if wave[0] !in lookup {
        return Some(Done(Failed)), [];
      }
      var step := lookup[wave[0]];
      var status := ExecuteStep(step, wave);
      if status == None {
        return Some(Crashed), [];
      }
      if status == Some(Running) {
        return Some(Paused), [];
      }
      if status == Some(Cancelled) {
        return Some(Done(Cancelled)), [];
      }
      next := NextStepIds(step, status.value, config.steps);
      if status == Some(Failed) && next == [] {
        return Some(Done(Failed)), [];
      }
      ticks := ticks + 1;
      outcome := None;
    }

    /** One iteration of the wave loop, on a wave that is not empty. */
    method ExecuteWave(wave: seq<string>) returns (outcome: Option<Outcome>, ghost last: seq<string>, next: seq<string>)
      requires Valid() && wave != []
      modifies `transitionCount, `stepOrderCounter, `rows, `dispatched, `ticks
      ensures WaveStep(config, world, old(State(wave))) ==
              if outcome.Some? then Ended(State(last), outcome.value) else State(next)
      ensures outcome.None? ==> next != []
    {
      last, next := wave, [];
      if world.cancelled(ticks) {
        return Some(Done(Cancelled)), wave, [];
      }
      if |wave| == 1 {
        outcome, next := ExecuteSingle(wave);
      } else {
        outcome, next := ExecuteFanOut(wave);
      }
      if outcome.None? {
        next := Dedup(next);
        if next == [] {
          outcome, last := Some(Done(Completed)), [];
        }
      }
    }

    /** The wave loop. Its precondition is the exact condition under which the loop always ends. */
    method ExecuteWaves(wave0: seq<string>) returns (outcome: Outcome, ghost last: seq<string>)
      requires Valid() && Acyclic(ErrorChain(config))
      modifies `transitionCount, `stepOrderCounter, `rows, `dispatched, `ticks
      ensures After(config, world, old(State(wave0)), Bound(config)) == Ended(State(last), outcome)
    {
      hide WaveStep, Acyclic, ErrorChain, Bound;
      ghost var r0 := State(wave0);
      HaltsWithinBound(config, world, r0);
      last := wave0;
      if wave0 == [] {
        EmptyWaveCompletes(config, world, r0);
        return Done(Completed), [];
      }
      var wave := wave0;
      ghost var k := 0;
      while true
        invariant wave != [] && k <= Bound(config) && After(config, world, r0, k) == State(wave)
        decreases Bound(config) - k
      {
        assert k < Bound(config);
        var ended, next;
        ended, last, next := ExecuteWave(wave);
        k := k + 1;
        if ended.Some? {
          EndedLater(config, world, r0, k, Bound(config));
          return ended.value, last;
        }
        wave := next;
      }
    }

    /** Runs the workflow: by waves, or in list order when no step has an id. */
    method ExecuteWorkflowSteps() returns (outcome: Outcome)
      requires Valid() && Acyclic(ErrorChain(config)) && State([]) == Start([])
      modifies `transitionCount, `stepOrderCounter, `rows, `dispatched, `ticks
      ensures config.steps == [] ==> outcome == Done(Completed) && State([]) == old(State([]))
      ensures config.steps != [] ==>
        match InitialWave(config.steps, resumeWave)
        case Some(wave) =>
          exists last :: After(config, world, Start(wave), Bound(config)) == Ended(State(last), outcome)
        case None => SequentialAfter(config, world, Start([]), |config.steps| + 1) == Ended(State([]), outcome)
    {
      if config.steps == [] {
        return Done(Completed);
      }
      var wave := InitialWave(config.steps, resumeWave);
      if wave.Some? {
        ghost var last;
        outcome, last := ExecuteWaves(wave.value);
      } else {
        outcome := ExecuteSequential();
      }
    }

    /** One iteration of the sequential loop, on a step that exists. */
    method ExecuteInOrder() returns (outcome: Option<Outcome>)
      requires Valid() && ticks < |config.steps|
      modifies `transitionCount, `stepOrderCounter, `rows, `dispatched, `ticks
      ensures SequentialStep(config, world, old(State([]))) ==
              if outcome.Some? then Ended(State([]), outcome.value) else State([])
      ensures outcome.None? ==> ticks == old(ticks) + 1
    {
      hide Execute;
      if world.cancelled(ticks) {
        return Some(Done(Cancelled));
      }
      var status := ExecuteStep(config.steps[ticks], []);
      if status == None {
        return Some(Crashed);
      }
      if status == Some(Running) {
        return Some(Paused);
      }
      if status == Some(Failed) || status == Some(Cancelled) {
        return Some(Done(status.value));
      }
      ticks := ticks + 1;
      outcome := None;
    }

    /** The fallback for steps without ids: every step in list order. */
    method ExecuteSequential() returns (outcome: Outcome)
      requires Valid() && State([]) == Start([])
      modifies `transitionCount, `stepOrderCounter, `rows, `dispatched, `ticks
      ensures SequentialAfter(config, world, Start([]), |config.steps| + 1) == Ended(State([]), outcome)
    {
      hide SequentialStep;
      var n := |config.steps|;
      for i := 0 to n
        invariant ticks == i && SequentialAfter(config, world, Start([]), i) == State([])
      {
        var ended := ExecuteInOrder();
        if ended.Some? {
          SequentialEndedLater(config, world, Start([]), i + 1, n + 1);
          return ended.value;
        }
      }
      SequentialFinishes(config, world, State([]));
      outcome := Done(Completed);
    }
  }

  lemma SequentialFinishes(c: Config, w: World, r: Run)
    requires r.outcome.None? && r.ticks >= |c.steps|
    ensures SequentialStep(c, w, r) == Ended(r, Done(Completed))
  {
  }

  lemma EmptyWaveCompletes(c: Config, w: World, r: Run)
    requires r.wave == [] && r.outcome.None?
    ensures After(c, w, r, Bound(c)) == Ended(r, Done(Completed))
  {
    assert After(c, w, r, 1) == WaveStep(c, w, After(c, w, r, 0));
    EndedLater(c, w, r, 1, Bound(c));
  }

  lemma {:induction false} SequentialEndedLater(c: Config, w: World, r: Run, j: nat, k: nat)
    requires SequentialAfter(c, w, r, j).outcome.Some? && j <= k
    ensures SequentialAfter(c, w, r, k) == SequentialAfter(c, w, r, j)
  {
    hide SequentialStep;
    if k > j {
      SequentialEndedLater(c, w, r, j, k - 1);
      SequentialEnded(c, w, SequentialAfter(c, w, r, j));
    }
  }
}
