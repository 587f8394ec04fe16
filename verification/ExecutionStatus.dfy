/** Status changes of executions: compare-and-set starts, cascade cancels and finalisations,
    interleaved one database statement at a time. */
module ExecutionStatus {
  import opened Routing

  /** The statuses finalisation never overwrites. */
  predicate IsFinal(s: Status) {
    s == Completed || s == Failed || s == Cancelled
  }

  datatype Audit = Audit(execution: int, status: Status)

  /** The execution rows and the audit trail. */
  datatype Store = Store(rows: map<int, Status>, audits: seq<Audit>) {
    predicate Has(e: int, s: Status) {
      e in rows && rows[e] == s
    }
  }

  /** UPDATE ... SET status = RUNNING WHERE id = e AND status = SUBMITTED */
  function CasStart(st: Store, e: int): (Store, bool) {
    if st.Has(e, Submitted) then (st.(rows := st.rows[e := Running]), true) else (st, false)
  }

  /** UPDATE ... SET status = CANCELLED WHERE id = e AND status IN (SUBMITTED, RUNNING) */
  function CasCancel(st: Store, e: int): Store {
    if st.Has(e, Submitted) || st.Has(e, Running) then st.(rows := st.rows[e := Cancelled]) else st
  }

  /** One transaction: the guarded update and, when it changed the row, the audit entry. */
  function CasFinalize(st: Store, e: int, target: Status): (Store, bool) {
    if e in st.rows && !IsFinal(st.rows[e])
    then (Store(st.rows[e := target], st.audits + [Audit(e, target)]), true)
    else (st, false)
  }

  /** save(update_fields=[...]) of FAILED: no guard. */
  function SaveFailed(st: Store, e: int): Store {
    if e in st.rows then st.(rows := st.rows[e := Failed]) else st
  }

  // ---------- the operations on a store that one process has to itself ----------

  class ExecutionTable {
    var store: Store

    constructor (rows: map<int, Status>)
      ensures store == Store(rows, [])
    {
      store := Store(rows, []);
    }

    method Start(e: int) returns (won: bool)
      modifies this
      ensures (store, won) == CasStart(old(store), e)
      ensures won <==> e in old(store).rows && old(store).rows[e] == Submitted
      ensures store == if won then old(store).(rows := old(store).rows[e := Running]) else old(store)
    {
      won := store.Has(e, Submitted);
      if won {
        store := store.(rows := store.rows[e := Running]);
      }
    }

    /** Cascade cancellation of child executions. */
    method CancelChildren(children: seq<int>)
      modifies this
      ensures store.audits == old(store).audits && store.rows.Keys == old(store).rows.Keys
      ensures forall e :: e in store.rows ==>
        store.rows[e] == if e in children && (old(store).rows[e] == Submitted || old(store).rows[e] == Running)
                         then Cancelled else old(store).rows[e]
    {
      for i := 0 to |children|
        invariant store.audits == old(store).audits && store.rows.Keys == old(store).rows.Keys
        invariant forall e :: e in store.rows ==>
          store.rows[e] == if e in children[..i] && (old(store).rows[e] == Submitted || old(store).rows[e] == Running)
                           then Cancelled else old(store).rows[e]
      {
        assert children[..i + 1] == children[..i] + [children[i]];
        store := CasCancel(store, children[i]);
      }
      assert children[..|children|] == children;
    }

    /** Returns the stored status: the target when the update was won, what was there otherwise. */
    method Finalize(e: int, target: Status) returns (status: Status)
      requires e in store.rows && IsFinal(target)
      modifies this
      ensures store == CasFinalize(old(store), e, target).0
      ensures var stored := old(store).rows[e];
              if stored == Completed || stored == Failed || stored == Cancelled
              then status == stored && store == old(store)
              else status == target
                   && store == Store(old(store).rows[e := target], old(store).audits + [Audit(e, target)])
    {
      if IsFinal(store.rows[e]) {
        status := store.rows[e];
      } else {
        store := Store(store.rows[e := target], store.audits + [Audit(e, target)]);
        status := target;
      }
    }
  }

  // ---------- interleaved processes ----------

  /** What a process does next. Each step of a process is one database statement or transaction. */
  datatype Pc =
    | Starting
    | Refreshing(won: bool)
    | Deciding(won: bool, seen: Status)
    | Saving
    | Working
    | Finalizing(target: Status)
    | LostFinalize
    | Cancelling(targets: seq<int>)
    | Returned(status: Status)
    | Refused
    | Stopped

  /** sync: run_sync, which goes on when the execution is already running. idle: the run finds nothing
      to start, because the workflow has no steps or, for run, because no step has an id to start from
      or no root step could be enqueued. */
  datatype Process = Process(execution: int, sync: bool, idle: bool, pc: Pc)

  datatype Event = Started(execution: int) | Finalized(execution: int, status: Status)

  datatype System = System(store: Store, processes: map<int, Process>, log: seq<Event>)

  /** What the workflow's steps come to: a final status, or a pause on a gate. */
  datatype Work = Ends(status: Status) | Pauses

  function WithPc(s: System, p: int, pc: Pc): System
    requires p in s.processes
  {
    s.(processes := s.processes[p := s.processes[p].(pc := pc)])
  }

  /** The in-memory check before the unguarded save: FAILED must be reachable from the status seen. */
  predicate MayFail(seen: Status) {
    seen == Submitted || seen == Running
  }

  /** Process p makes its next step; work is the outcome if that step is the workflow's work. */
  function Next(s: System, p: int, work: Work): System {
    if p !in s.processes then s else
      var proc := s.processes[p];
      var e := proc.execution;
      match proc.pc
      case Starting =>
        var (st, won) := CasStart(s.store, e);
        var s1 := s.(store := st, log := if won then s.log + [Started(e)] else s.log);
        WithPc(s1, p, if won || proc.sync then Refreshing(won) else Stopped)
      case Refreshing(won) =>
        if e !in s.store.rows then WithPc(s, p, Stopped) else
        WithPc(s, p, Deciding(won, s.store.rows[e]))
      case Deciding(won, seen) =>
        if !won && seen != Running then WithPc(s, p, Refused)
        else if proc.idle then WithPc(s, p, if MayFail(seen) then Saving else Stopped)
        else WithPc(s, p, if proc.sync then Working else Stopped)
      case Saving =>
        WithPc(s.(store := SaveFailed(s.store, e)), p, Stopped)
      case Working =>
        WithPc(s, p, if work.Ends? && IsFinal(work.status) then Finalizing(work.status) else Stopped)
      case Finalizing(target) =>
        var (st, won) := CasFinalize(s.store, e, target);
        if won then WithPc(s.(store := st, log := s.log + [Finalized(e, target)]), p, Returned(target))
        else WithPc(s, p, LostFinalize)
      case LostFinalize =>
        if e !in s.store.rows then WithPc(s, p, Stopped) else WithPc(s, p, Returned(s.store.rows[e]))
      case Cancelling(targets) =>
        if targets == [] then WithPc(s, p, Stopped)
        else WithPc(s.(store := CasCancel(s.store, targets[0])), p, Cancelling(targets[1..]))
      case Returned(_) => s
      case Refused => s
      case Stopped => s
  }

  /** The system after a schedule: any interleaving of process steps. */
  function RunSchedule(s: System, schedule: seq<(int, Work)>): System {
    if schedule == [] then s else
      var last := schedule[|schedule| - 1];
      Next(RunSchedule(s, schedule[..|schedule| - 1]), last.0, last.1)
  }

  /** Processes at their beginnings, nothing logged or audited yet. */
  predicate Initial(s: System) {
    && s.log == [] && s.store.audits == []
    && forall p :: p in s.processes ==>
         var pc := s.processes[p].pc;
         pc == Starting || pc.Cancelling? || (pc.Finalizing? && IsFinal(pc.target))
  }

  // ---------- what every interleaving keeps ----------

  ghost predicate TargetsFinal(s: System) {
    forall p :: p in s.processes && s.processes[p].pc.Finalizing? ==> IsFinal(s.processes[p].pc.target)
  }

  function Starts(log: seq<Event>, e: int): nat {
    if log == [] then 0 else Starts(log[..|log| - 1], e) + if log[|log| - 1] == Started(e) then 1 else 0
  }

  /** The audit entries that the won finalisations of a log call for. */
  function AuditsOf(log: seq<Event>): seq<Audit> {
    if log == [] then [] else
      var last := log[|log| - 1];
      AuditsOf(log[..|log| - 1]) + if last.Finalized? then [Audit(last.execution, last.status)] else []
  }

  ghost predicate StartOnce(s: System) {
    forall e :: Starts(s.log, e) <= 1 && (s.store.Has(e, Submitted) ==> Starts(s.log, e) == 0)
  }

  /** One start per execution, one audit entry per won finalisation and none otherwise. */
  ghost predicate Inv(s: System) {
    TargetsFinal(s) && StartOnce(s) && s.store.audits == AuditsOf(s.log)
  }

  lemma LogSnoc(log: seq<Event>, x: Event)
    ensures forall e :: Starts(log + [x], e) == Starts(log, e) + if x == Started(e) then 1 else 0
    ensures AuditsOf(log + [x]) == AuditsOf(log) + if x.Finalized? then [Audit(x.execution, x.status)] else []
  {
    assert (log + [x])[..|log|] == log;
  }

  lemma StepKeepsTargets(s: System, p: int, work: Work)
    requires TargetsFinal(s)
    ensures TargetsFinal(Next(s, p, work))
  {
  }

  ghost predicate StartsOne(s: System, s': System, e: int) {
    && s'.log == s.log + [Started(e)] && s'.store.audits == s.store.audits
    && s.store.Has(e, Submitted) && s'.store.rows == s.store.rows[e := Running]
  }

  ghost predicate FinalizesOne(s: System, s': System, e: int, t: Status) {
    && s'.log == s.log + [Finalized(e, t)] && s'.store.audits == s.store.audits + [Audit(e, t)]
    && IsFinal(t) && e in s.store.rows && !IsFinal(s.store.rows[e]) && s'.store.rows == s.store.rows[e := t]
  }

  ghost predicate LogsNothing(s: System, s': System) {
    && s'.log == s.log && s'.store.audits == s.store.audits
    && forall e :: s'.store.Has(e, Submitted) ==> s.store.Has(e, Submitted)
  }

  /** What one step appends to the log, and what it does to the rows and the audit trail. */
  lemma StepLogs(s: System, p: int, work: Work)
    requires TargetsFinal(s)
    ensures var s' := Next(s, p, work);
            LogsNothing(s, s') || (exists e :: StartsOne(s, s', e)) || (exists e, t :: FinalizesOne(s, s', e, t))
  {
    if p in s.processes {
      var e := s.processes[p].execution;
      if s.processes[p].pc == Starting && s.store.Has(e, Submitted) {
        assert StartsOne(s, Next(s, p, work), e);
      } else if s.processes[p].pc.Finalizing? && e in s.store.rows && !IsFinal(s.store.rows[e]) {
        assert FinalizesOne(s, Next(s, p, work), e, s.processes[p].pc.target);
      } else {
        assert LogsNothing(s, Next(s, p, work));
      }
    }
  }

  lemma StepKeepsInv(s: System, p: int, work: Work)
    requires Inv(s)
    ensures Inv(Next(s, p, work))
  {
    hide Next, Starts, AuditsOf, TargetsFinal;
    StepKeepsTargets(s, p, work);
    StepLogs(s, p, work);
    var s' := Next(s, p, work);
    if e :| StartsOne(s, s', e) {
      LogSnoc(s.log, Started(e));
    } else if e, t :| FinalizesOne(s, s', e, t) {
      LogSnoc(s.log, Finalized(e, t));
    }
  }

  /** Under every interleaving an execution goes from SUBMITTED to RUNNING at most once, and the
      audit trail holds exactly one entry for each finalisation that won. */
  lemma {:induction false} EveryInterleaving(s: System, schedule: seq<(int, Work)>)
    requires Initial(s)
    ensures Inv(RunSchedule(s, schedule))
  {
    hide Next;
    if schedule != [] {
      hide Inv;
      var last := schedule[|schedule| - 1];
      EveryInterleaving(s, schedule[..|schedule| - 1]);
      StepKeepsInv(RunSchedule(s, schedule[..|schedule| - 1]), last.0, last.1);
    }
  }

  // ---------- final statuses ----------

  /** The only step that replaces a final status by another one is the unguarded save. */
  lemma OverwritesIff(s: System, p: int, work: Work, e: int)
    requires TargetsFinal(s) && e in s.store.rows && IsFinal(s.store.rows[e])
    ensures e in Next(s, p, work).store.rows
    ensures Next(s, p, work).store.rows[e] != s.store.rows[e] <==>
      p in s.processes && s.processes[p].pc == Saving && s.processes[p].execution == e && s.store.rows[e] != Failed
  {
  }

  /** Every final status of the earlier store is the same in the later one. */
  ghost predicate KeepsFinal(earlier: Store, later: Store) {
    forall e :: e in earlier.rows && IsFinal(earlier.rows[e]) ==> later.Has(e, earlier.rows[e])
  }

  /** No run that finds nothing to start is among the processes. */
  ghost predicate AllHaveWork(s: System) {
    forall p :: p in s.processes ==> !s.processes[p].idle && s.processes[p].pc != Saving
  }

  /** What a finalisation returned, or will return, is the stored final status. */
  ghost predicate ResultsStored(s: System) {
    forall p :: p in s.processes ==> ResultStored(s.store, s.processes[p])
  }

  ghost predicate ResultStored(st: Store, proc: Process) {
    && (proc.pc.Returned? ==> st.Has(proc.execution, proc.pc.status) && IsFinal(proc.pc.status))
    && (proc.pc.LostFinalize? && proc.execution in st.rows ==> IsFinal(st.rows[proc.execution]))
  }

  /** Every won finalisation is still what the row says, so no execution is finalised twice. */
  ghost predicate FinalizedStays(s: System) {
    && (forall i :: 0 <= i < |s.log| && s.log[i].Finalized? ==>
        s.store.Has(s.log[i].execution, s.log[i].status) && IsFinal(s.log[i].status))
    && (forall i, j :: 0 <= i < j < |s.log| && s.log[i].Finalized? && s.log[j].Finalized? ==>
        s.log[i].execution != s.log[j].execution)
  }

  ghost predicate Guarded(s: System) {
    TargetsFinal(s) && AllHaveWork(s) && ResultsStored(s) && FinalizedStays(s)
  }

  lemma StepKeepsFinals(s: System, p: int, work: Work)
    requires TargetsFinal(s) && AllHaveWork(s)
    ensures KeepsFinal(s.store, Next(s, p, work).store) && AllHaveWork(Next(s, p, work))
  {
    var s' := Next(s, p, work);
    forall e | e in s.store.rows && IsFinal(s.store.rows[e])
      ensures s'.store.Has(e, s.store.rows[e])
    {
      OverwritesIff(s, p, work, e);
    }
  }

  /** Only the process that moves changes its result, and final rows stay. */
  lemma StepKeepsResults(s: System, p: int, work: Work)
    requires TargetsFinal(s) && AllHaveWork(s) && ResultsStored(s)
    ensures ResultsStored(Next(s, p, work))
  {
    StepKeepsFinals(s, p, work);
    StepMovesOne(s, p, work);
    var s' := Next(s, p, work);
    if p in s.processes {
      MovedResult(s, p, work);
    }
    hide Next;
    forall q | q in s'.processes
      ensures ResultStored(s'.store, s'.processes[q])
    {
      assert q != p ==> ResultStored(s.store, s.processes[q]);
    }
  }

  lemma StepMovesOne(s: System, p: int, work: Work)
    ensures var s' := Next(s, p, work);
            && s'.processes.Keys == s.processes.Keys && s'.store.rows.Keys == s.store.rows.Keys
            && forall q :: q in s.processes && q != p ==> s'.processes[q] == s.processes[q]
  {
  }

  lemma MovedResult(s: System, p: int, work: Work)
    requires TargetsFinal(s) && AllHaveWork(s) && ResultsStored(s) && p in s.processes
    ensures var s' := Next(s, p, work); p in s'.processes && ResultStored(s'.store, s'.processes[p])
  {
    assert ResultStored(s.store, s.processes[p]);
  }

  lemma StepKeepsFinalized(s: System, p: int, work: Work)
    requires TargetsFinal(s) && AllHaveWork(s) && FinalizedStays(s)
    ensures FinalizedStays(Next(s, p, work))
  {
    hide Next, TargetsFinal, AllHaveWork;
    StepKeepsFinals(s, p, work);
    StepLogs(s, p, work);
  }

  lemma StepKeepsGuarded(s: System, p: int, work: Work)
    requires Guarded(s)
    ensures Guarded(Next(s, p, work))
    ensures KeepsFinal(s.store, Next(s, p, work).store)
  {
    hide Next, TargetsFinal, AllHaveWork, ResultsStored, FinalizedStays, KeepsFinal;
    StepKeepsTargets(s, p, work);
    StepKeepsFinals(s, p, work);
    StepKeepsResults(s, p, work);
    StepKeepsFinalized(s, p, work);
  }

  /** When every run finds something to start: no final status is ever overwritten, each execution is finalised at most
      once, and every finalisation returns the status that is stored from then on. */
  lemma {:induction false} FinalStatusesStay(s: System, schedule: seq<(int, Work)>, k: nat)
    requires Initial(s) && AllHaveWork(s) && k <= |schedule|
    ensures Guarded(RunSchedule(s, schedule)) && Guarded(RunSchedule(s, schedule[..k]))
    ensures KeepsFinal(RunSchedule(s, schedule[..k]).store, RunSchedule(s, schedule).store)
    decreases |schedule|
  {
    hide Next;
    if k < |schedule| {
      hide Guarded;
      var n := |schedule| - 1;
      FinalStatusesStay(s, schedule[..n], k);
      assert schedule[..n][..k] == schedule[..k];
      StepKeepsGuarded(RunSchedule(s, schedule[..n]), schedule[n].0, schedule[n].1);
    } else {
      assert schedule[..k] == schedule;
      if schedule != [] {
        hide Guarded;
        var n := |schedule| - 1;
        FinalStatusesStay(s, schedule[..n], n);
        StepKeepsGuarded(RunSchedule(s, schedule[..n]), schedule[n].0, schedule[n].1);
      }
    }
  }
}
