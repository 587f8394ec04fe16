/** Which systems of concurrent starts, cancellations and finalisations can overwrite a final status. */
module ExecutionRaces {
  import opened Routing
  import opened ExecutionStatus

  /** Whatever the schedule, a final status once stored stays stored. */
  ghost predicate FinalStays(s: System) {
    forall schedule, k :: 0 <= k <= |schedule| ==>
      KeepsFinal(RunSchedule(s, schedule[..k]).store, RunSchedule(s, schedule).store)
  }

  /** A run that finds nothing to start and will save FAILED, or can still come to that. */
  predicate Doomed(st: Store, proc: Process) {
    var e := proc.execution;
    match proc.pc
    case Starting => proc.idle && (st.Has(e, Submitted) || (proc.sync && st.Has(e, Running)))
    case Refreshing(_) => proc.idle && (st.Has(e, Submitted) || st.Has(e, Running))
    case Deciding(won, seen) => proc.idle && MayFail(seen) && (won || seen == Running)
    case Saving => true
    case _ => false
  }

  predicate AtWork(pc: Pc) {
    pc.Starting? || pc.Refreshing? || pc.Deciding? || pc.Working?
  }

  /** The process can give execution e a final status other than FAILED: a canceller that names it, a
      finalisation, or a synchronous run with work on it. */
  predicate Threat(proc: Process, e: int) {
    || (proc.pc.Cancelling? && e in proc.pc.targets)
    || (proc.execution == e && proc.pc.Finalizing? && proc.pc.target != Failed)
    || (proc.execution == e && proc.sync && !proc.idle && AtWork(proc.pc))
  }

  /** Somebody can finish an execution that an idle run is going to fail. */
  ghost predicate Endangered(s: System) {
    exists p, q :: p in s.processes && q in s.processes && p != q
      && Doomed(s.store, s.processes[p]) && Threat(s.processes[q], s.processes[p].execution)
  }

  // ---------- what an undisturbed system keeps ----------

  predicate Spoiled(st: Store, e: int) {
    st.Has(e, Completed) || st.Has(e, Cancelled)
  }

  ghost predicate WorkersWork(s: System) {
    forall p :: p in s.processes && s.processes[p].pc.Working? ==> s.processes[p].sync && !s.processes[p].idle
  }

  ghost predicate Undisturbed(s: System, p: int)
    requires p in s.processes
  {
    && !Spoiled(s.store, s.processes[p].execution)
    && forall q :: q in s.processes && q != p ==> !Threat(s.processes[q], s.processes[p].execution)
  }

  ghost predicate Calm(s: System) {
    && TargetsFinal(s) && WorkersWork(s)
    && forall p :: p in s.processes && Doomed(s.store, s.processes[p]) ==> Undisturbed(s, p)
  }

  lemma StepKeepsWorkers(s: System, r: int, work: Work)
    requires WorkersWork(s)
    ensures WorkersWork(Next(s, r, work))
  {
  }

  /** A step brings no new threat. */
  lemma ThreatShrinks(s: System, r: int, work: Work, q: int, e: int)
    requires WorkersWork(s) && q in s.processes
    ensures var s' := Next(s, r, work);
            q in s'.processes && s'.processes[q].execution == s.processes[q].execution
            && (Threat(s'.processes[q], e) ==> Threat(s.processes[q], e))
  {
  }

  /** Nor does it doom a run that was not. */
  lemma DoomShrinks(s: System, r: int, work: Work, p: int)
    requires TargetsFinal(s) && p in s.processes
    ensures var s' := Next(s, r, work);
            p in s'.processes && (Doomed(s'.store, s'.processes[p]) ==> Doomed(s.store, s.processes[p]))
  {
  }

  /** Only a threat spoils the row of a doomed run. */
  lemma SpoiledByThreat(s: System, r: int, work: Work, p: int)
    requires TargetsFinal(s) && p in s.processes && Doomed(s.store, s.processes[p]) && Undisturbed(s, p)
    ensures !Spoiled(Next(s, r, work).store, s.processes[p].execution)
  {
  }

  lemma StepKeepsCalm(s: System, r: int, work: Work)
    requires Calm(s)
    ensures Calm(Next(s, r, work)) && KeepsFinal(s.store, Next(s, r, work).store)
  {
    hide Next, TargetsFinal, WorkersWork, Doomed, Threat, Spoiled;
    StepKeepsTargets(s, r, work);
    StepKeepsWorkers(s, r, work);
    StepMovesOne(s, r, work);
    var s' := Next(s, r, work);
    forall p | p in s'.processes && Doomed(s'.store, s'.processes[p])
      ensures Undisturbed(s', p)
    {
      DoomShrinks(s, r, work, p);
      SpoiledByThreat(s, r, work, p);
      ThreatShrinks(s, r, work, p, 0);
      forall q | q in s'.processes && q != p
        ensures !Threat(s'.processes[q], s'.processes[p].execution)
      {
        ThreatShrinks(s, r, work, q, s'.processes[p].execution);
      }
    }
    CalmKeepsFinal(s, r, work);
  }

  lemma CalmKeepsFinal(s: System, r: int, work: Work)
    requires Calm(s)
    ensures KeepsFinal(s.store, Next(s, r, work).store)
  {
    hide Next, TargetsFinal, WorkersWork, Threat;
    forall e | e in s.store.rows && IsFinal(s.store.rows[e])
      ensures Next(s, r, work).store.Has(e, s.store.rows[e])
    {
      OverwritesIff(s, r, work, e);
    }
  }

  lemma {:induction false} CalmRun(s: System, schedule: seq<(int, Work)>)
    requires Calm(s)
    ensures Calm(RunSchedule(s, schedule))
  {
    hide Next, Calm;
    if schedule != [] {
      var n := |schedule| - 1;
      CalmRun(s, schedule[..n]);
      StepKeepsCalm(RunSchedule(s, schedule[..n]), schedule[n].0, schedule[n].1);
    }
  }

  lemma {:induction false} CalmStays(s: System, schedule: seq<(int, Work)>, k: nat)
    requires Calm(s) && k <= |schedule|
    ensures KeepsFinal(RunSchedule(s, schedule[..k]).store, RunSchedule(s, schedule).store)
    decreases |schedule|
  {
    hide Next, Calm;
    if k == |schedule| {
      assert schedule[..k] == schedule;
    } else {
      var n := |schedule| - 1;
      CalmStays(s, schedule[..n], k);
      assert schedule[..n][..k] == schedule[..k];
      CalmRun(s, schedule[..n]);
      StepKeepsCalm(RunSchedule(s, schedule[..n]), schedule[n].0, schedule[n].1);
    }
  }

  lemma InitiallyCalm(s: System)
    requires Initial(s) && !Endangered(s)
    ensures Calm(s)
  {
    forall p | p in s.processes && Doomed(s.store, s.processes[p])
      ensures Undisturbed(s, p)
    {
      assert s.processes[p].pc == Starting;
    }
  }

  // ---------- the schedule that overwrites ----------

  lemma {:induction false} RunConcat(s: System, a: seq<(int, Work)>, b: seq<(int, Work)>)
    ensures RunSchedule(s, a + b) == RunSchedule(RunSchedule(s, a), b)
  {
    hide Next;
    if b == [] {
      assert a + b == a;
    } else {
      var n := |b| - 1;
      RunConcat(s, a, b[..n]);
      assert (a + b)[..|a + b| - 1] == a + b[..n];
    }
  }

  lemma RunOne(s: System, p: int, work: Work)
    ensures RunSchedule(s, [(p, work)]) == Next(s, p, work)
  {
    hide Next;
    assert [(p, work)][..0] == [];
  }

  /** One more step at the end of a schedule. */
  lemma RunSnoc(s: System, a: seq<(int, Work)>, p: int, work: Work)
    ensures RunSchedule(s, a + [(p, work)]) == Next(RunSchedule(s, a), p, work)
  {
    hide Next, RunSchedule;
    RunConcat(s, a, [(p, work)]);
    RunOne(RunSchedule(s, a), p, work);
  }

  /** Only process p has moved, and it stands at pc. */
  predicate OnlyMoved(s: System, s': System, p: int, pc: Pc) {
    p in s.processes && s'.processes == s.processes[p := s.processes[p].(pc := pc)]
  }

  /** Three steps take an idle run to its save, with the row at RUNNING. */
  lemma ReachesSave(s: System, p: int) returns (steps: seq<(int, Work)>)
    requires p in s.processes && s.processes[p].pc == Starting && Doomed(s.store, s.processes[p])
    ensures var s' := RunSchedule(s, steps);
            OnlyMoved(s, s', p, Saving) && s'.store.Has(s.processes[p].execution, Running)
  {
    hide RunSchedule;
    var m := (p, Pauses);
    RunOne(s, p, Pauses);
    RunSnoc(s, [m], p, Pauses);
    RunSnoc(s, [m] + [m], p, Pauses);
    steps := [m] + [m] + [m];
    var won := s.store.Has(s.processes[p].execution, Submitted);
    var s1 := Next(s, p, Pauses);
    assert OnlyMoved(s, s1, p, Refreshing(won)) && s1.store.Has(s.processes[p].execution, Running);
    var s2 := Next(s1, p, Pauses);
    assert OnlyMoved(s, s2, p, Deciding(won, Running)) && s2.store == s1.store;
  }

  predicate Fresh(pc: Pc) {
    pc == Starting || pc.Cancelling? || (pc.Finalizing? && IsFinal(pc.target))
  }

  lemma {:induction false} Cancels(s: System, q: int, e: int) returns (steps: seq<(int, Work)>)
    requires q in s.processes && s.processes[q].pc.Cancelling? && e in s.processes[q].pc.targets
    requires s.store.Has(e, Running)
    ensures var s' := RunSchedule(s, steps);
            s'.store.Has(e, Cancelled) && s'.processes.Keys == s.processes.Keys
            && forall p :: p in s.processes && p != q ==> s'.processes[p] == s.processes[p]
    decreases |s.processes[q].pc.targets|
  {
    var m := (q, Pauses);
    var s1 := Next(s, q, Pauses);
    var targets := s.processes[q].pc.targets;
    hide RunSchedule;
    RunOne(s, q, Pauses);
    steps := [m];
    if targets[0] != e {
      var rest := Cancels(s1, q, e);
      RunConcat(s, [m], rest);
      steps := [m] + rest;
    }
  }

  lemma WorkRuns(s: System, q: int) returns (steps: seq<(int, Work)>)
    requires q in s.processes && s.processes[q].pc == Starting && s.processes[q].sync && !s.processes[q].idle
    requires s.store.Has(s.processes[q].execution, Running)
    ensures var s' := RunSchedule(s, steps);
            s'.store.Has(s.processes[q].execution, Completed) && OnlyMoved(s, s', q, Returned(Completed))
  {
    hide RunSchedule;
    var m, done := (q, Pauses), (q, Ends(Completed));
    RunOne(s, q, Pauses);
    RunSnoc(s, [m], q, Pauses);
    RunSnoc(s, [m] + [m], q, Pauses);
    RunSnoc(s, [m] + [m] + [m], q, Ends(Completed));
    RunSnoc(s, [m] + [m] + [m] + [done], q, Pauses);
    steps := [m] + [m] + [m] + [done] + [m];
    var s1 := Next(s, q, Pauses);
    assert OnlyMoved(s, s1, q, Refreshing(false)) && s1.store == s.store;
    var s2 := Next(s1, q, Pauses);
    assert OnlyMoved(s, s2, q, Deciding(false, Running)) && s2.store == s.store;
    var s3 := Next(s2, q, Pauses);
    assert OnlyMoved(s, s3, q, Working) && s3.store == s.store;
    var s4 := Next(s3, q, Ends(Completed));
    assert OnlyMoved(s, s4, q, Finalizing(Completed)) && s4.store == s.store;
  }

  /** A threat carried out: the row ends COMPLETED or CANCELLED, and no other process moves. */
  lemma CarriedOut(s: System, q: int, e: int) returns (steps: seq<(int, Work)>)
    requires q in s.processes && Fresh(s.processes[q].pc) && Threat(s.processes[q], e) && s.store.Has(e, Running)
    ensures var s' := RunSchedule(s, steps);
            Spoiled(s'.store, e) && s'.processes.Keys == s.processes.Keys
            && forall p :: p in s.processes && p != q ==> s'.processes[p] == s.processes[p]
  {
    var pc := s.processes[q].pc;
    if pc.Cancelling? {
      steps := Cancels(s, q, e);
    } else if pc.Finalizing? {
      steps := [(q, Pauses)];
      RunOne(s, q, Pauses);
    } else {
      hide Next, RunSchedule;
      steps := WorkRuns(s, q);
    }
  }

  /** The save of FAILED, after a threat has been carried out. */
  lemma EndangeredOverwrites(s: System, p: int, q: int)
    requires Initial(s) && p in s.processes && q in s.processes && p != q
    requires Doomed(s.store, s.processes[p]) && Threat(s.processes[q], s.processes[p].execution)
    ensures !FinalStays(s)
  {
    var e := s.processes[p].execution;
    assert s.processes[p].pc == Starting && Fresh(s.processes[q].pc);
    hide RunSchedule, KeepsFinal, Doomed, Threat, Initial;
    var a := ReachesSave(s, p);
    var s1 := RunSchedule(s, a);
    assert s1.processes[q] == s.processes[q];
    var b := CarriedOut(s1, q, e);
    RunConcat(s, a, b);
    var s2 := RunSchedule(s, a + b);
    RunSnoc(s, a + b, p, Pauses);
    var s3 := Next(s2, p, Pauses);
    assert s3.store.Has(e, Failed);
    SpoiledLost(s2.store, s3.store, e);
    var schedule := a + b + [(p, Pauses)];
    assert schedule[..|a + b|] == a + b;
  }

  lemma SpoiledLost(earlier: Store, later: Store, e: int)
    requires Spoiled(earlier, e) && later.Has(e, Failed)
    ensures !KeepsFinal(earlier, later)
  {
    assert e in earlier.rows && IsFinal(earlier.rows[e]);
  }

  /** A system keeps every final status under every interleaving exactly when nobody can finish, otherwise than
      by failing it, an execution on which an idle run is about to start. */
  lemma FinalStaysIff(s: System)
    requires Initial(s)
    ensures FinalStays(s) <==> !Endangered(s)
  {
    hide Initial, KeepsFinal, RunSchedule, Doomed, Threat, Calm;
    if Endangered(s) {
      var p, q :| p in s.processes && q in s.processes && p != q
        && Doomed(s.store, s.processes[p]) && Threat(s.processes[q], s.processes[p].execution);
      EndangeredOverwrites(s, p, q);
    } else {
      InitiallyCalm(s);
      forall schedule, k | 0 <= k <= |schedule|
        ensures KeepsFinal(RunSchedule(s, schedule[..k]).store, RunSchedule(s, schedule).store)
      {
        CalmStays(s, schedule, k);
      }
    }
  }

  // ---------- the smallest case ----------

  /** One run of execution 1, submitted, beside one canceller of it. */
  function RunBesideCancel(sync: bool, idle: bool): System {
    System(Store(map[1 := Submitted], []),
           map[1 := Process(1, sync, idle, Starting), 2 := Process(1, false, false, Cancelling([1]))], [])
  }

  /** Such a run keeps the final status exactly when it finds something to start. */
  lemma FinalStaysIffWork(sync: bool, idle: bool)
    ensures FinalStays(RunBesideCancel(sync, idle)) <==> !idle
  {
    var s := RunBesideCancel(sync, idle);
    hide FinalStays;
    FinalStaysIff(s);
    if idle {
      assert Doomed(s.store, s.processes[1]) && Threat(s.processes[2], 1);
    }
  }
}
