/** What every run of the wave executor keeps, and when runs stop. */
module WaveTheorems {
  import opened Workflow
  import opened Routing
  import opened WaveRun
  import ExecutionStatus

  // ---------- iteration ----------

  lemma EndedStep(c: Config, w: World, r: Run)
    requires r.outcome.Some?
    ensures WaveStep(c, w, r) == r
  {
  }

  lemma {:induction false} EndedStays(c: Config, w: World, r: Run, k: nat)
    requires r.outcome.Some?
    ensures After(c, w, r, k) == r
  {
    hide WaveStep;
    if k > 0 {
      EndedStays(c, w, r, k - 1);
      EndedStep(c, w, r);
    }
  }

  lemma {:induction false} AfterSplit(c: Config, w: World, r: Run, j: nat, k: nat)
    ensures After(c, w, r, j + k) == After(c, w, After(c, w, r, j), k)
  {
    hide WaveStep;
    if k > 0 {
      AfterSplit(c, w, r, j, k - 1);
    }
  }

  lemma EndedLater(c: Config, w: World, r: Run, j: nat, k: nat)
    requires After(c, w, r, j).outcome.Some? && j <= k
    ensures After(c, w, r, k) == After(c, w, r, j)
  {
    hide WaveStep;
    AfterSplit(c, w, r, j, k - j);
    EndedStays(c, w, After(c, w, r, j), k - j);
  }

  // ---------- what a run can end with ----------

  ghost predicate EndsFinal(r: Run) {
    r.outcome.Some? && r.outcome.value.Done? ==> ExecutionStatus.IsFinal(r.outcome.value.status)
  }

  lemma ExecuteKeepsOutcome(c: Config, w: World, r: Run, step: Step)
    ensures Execute(c, w, r, step).0.outcome == r.outcome
  {
  }

  lemma StepEndsFinal(c: Config, w: World, r: Run)
    requires EndsFinal(r)
    ensures EndsFinal(WaveStep(c, w, r)) && EndsFinal(SequentialStep(c, w, r))
  {
    hide Lookup, NextStepIds, JoinPolicy, Finish, Execute;
    if |r.wave| == 1 && r.wave[0] in Lookup(c.steps) {
      ExecuteKeepsOutcome(c, w, r, Lookup(c.steps)[r.wave[0]]);
    }
    if r.ticks < |c.steps| {
      ExecuteKeepsOutcome(c, w, r, c.steps[r.ticks]);
    }
  }

  /** Whichever executor runs the steps, a run that is done ends in a status that finalisation accepts:
      COMPLETED, FAILED or CANCELLED. */
  lemma {:induction false} OutcomesFinal(c: Config, w: World, wave: seq<string>, k: nat)
    ensures EndsFinal(After(c, w, Start(wave), k)) && EndsFinal(SequentialAfter(c, w, Start(wave), k))
  {
    hide WaveStep, SequentialStep;
    if k > 0 {
      OutcomesFinal(c, w, wave, k - 1);
      StepEndsFinal(c, w, After(c, w, Start(wave), k - 1));
      StepEndsFinal(c, w, SequentialAfter(c, w, Start(wave), k - 1));
    }
  }

  // ---------- the transition cap ----------

  ghost predicate WithinCap(c: Config, r: Run) {
    |r.dispatched| <= r.transitions && |r.dispatched| <= c.maxTransitions
  }

  lemma ExecuteWithinCap(c: Config, w: World, r: Run, step: Step)
    requires WithinCap(c, r)
    ensures WithinCap(c, Execute(c, w, r, step).0)
  {
  }

  lemma StepWithinCap(c: Config, w: World, r: Run)
    requires WithinCap(c, r)
    ensures WithinCap(c, WaveStep(c, w, r))
  {
    hide Execute, Finish, JoinPolicy, NextStepIds, Dedup, Lookup;
    if |r.wave| == 1 && r.wave[0] in Lookup(c.steps) {
      ExecuteWithinCap(c, w, r, Lookup(c.steps)[r.wave[0]]);
    }
  }

  lemma SequentialStepWithinCap(c: Config, w: World, r: Run)
    requires WithinCap(c, r)
    ensures WithinCap(c, SequentialStep(c, w, r))
  {
    hide Execute;
    if r.ticks < |c.steps| {
      ExecuteWithinCap(c, w, r, c.steps[r.ticks]);
    }
  }

  /** No run of the wave executor attempts more than maxTransitions steps, on any graph. */
  lemma {:induction false} DispatchCap(c: Config, w: World, wave: seq<string>, k: nat)
    ensures WithinCap(c, After(c, w, Start(wave), k))
  {
    hide WaveStep;
    if k > 0 {
      DispatchCap(c, w, wave, k - 1);
      StepWithinCap(c, w, After(c, w, Start(wave), k - 1));
    }
  }

  lemma {:induction false} SequentialDispatchCap(c: Config, w: World, k: nat)
    ensures WithinCap(c, SequentialAfter(c, w, Start([]), k))
  {
    hide SequentialStep;
    if k > 0 {
      SequentialDispatchCap(c, w, k - 1);
      SequentialStepWithinCap(c, w, SequentialAfter(c, w, Start([]), k - 1));
    }
  }

  // ---------- step orders ----------

  ghost predicate OrdersBetween(rows: seq<Row>, low: nat, high: nat) {
    && (forall i :: 0 <= i < |rows| ==> low < rows[i].order <= high)
    && (forall i, j :: 0 <= i < j < |rows| ==> rows[i].order != rows[j].order)
  }

  lemma OrdersAppend(a: seq<Row>, b: seq<Row>, mid: nat, high: nat)
    requires OrdersBetween(a, 0, mid) && OrdersBetween(b, mid, high) && mid <= high
    ensures OrdersBetween(a + b, 0, high)
  {
  }

  lemma {:induction false} LastIndexUnique(wave: seq<string>, i: nat)
    requires NoDup(wave) && i < |wave|
    ensures LastIndex(wave, wave[i]) == i
  {
    assert wave[LastIndex(wave, wave[i])] == wave[i];
  }

  /** Parallel steps write their rows in any order, each under its own pre-allocated number. */
  lemma {:induction false} FinishOrders(c: Config, w: World, wave: seq<string>, base: nat, order: seq<nat>)
    requires AllKnown(wave, Lookup(c.steps)) && NoDup(wave)
    requires forall i :: 0 <= i < |order| ==> order[i] < |wave|
    requires forall i, j :: 0 <= i < j < |order| ==> order[i] != order[j]
    ensures OrdersBetween(Finish(c, w, wave, base, order).0, base, base + |wave|)
    ensures forall k :: 0 <= k < |Finish(c, w, wave, base, order).0| ==>
      exists i :: 0 <= i < |order| && Finish(c, w, wave, base, order).0[k].order == base + 1 + order[i]
  {
    if order != [] {
      var n := |order| - 1;
      FinishOrders(c, w, wave, base, order[..n]);
      LastIndexUnique(wave, order[n]);
    }
  }

  /** One iteration only adds rows, and the added rows are numbered above everything before them. */
  lemma StepOrders(c: Config, w: World, r: Run)
    requires NoDup(r.wave)
    ensures var r' := WaveStep(c, w, r);
            && NoDup(r'.wave) && r.orders <= r'.orders
            && |r.rows| <= |r'.rows| && r'.rows[..|r.rows|] == r.rows
            && OrdersBetween(r'.rows[|r.rows|..], r.orders, r'.orders)
  {
    hide Single, FanOut;
    if r.outcome.None? && r.wave != [] && !w.cancelled(r.ticks) {
      if |r.wave| == 1 {
        SingleOrders(c, w, r);
      } else {
        FanOutOrders(c, w, r);
      }
    }
  }

  lemma SingleOrders(c: Config, w: World, r: Run)
    requires NoDup(r.wave) && |r.wave| == 1
    ensures var r' := Single(c, w, r);
            && NoDup(r'.wave) && r.orders <= r'.orders
            && |r.rows| <= |r'.rows| && r'.rows[..|r.rows|] == r.rows
            && OrdersBetween(r'.rows[|r.rows|..], r.orders, r'.orders)
  {
    hide NextStepIds, Dedup, Lookup, Execute;
    if r.wave[0] in Lookup(c.steps) {
      var step := Lookup(c.steps)[r.wave[0]];
      ExecuteOrders(c, w, r, step);
      var status := Execute(c, w, r, step).1;
      if status.Some? {
        DedupFacts(NextStepIds(step, status.value, c.steps));
      }
    }
  }

  lemma ExecuteOrders(c: Config, w: World, r: Run, step: Step)
    ensures var r1 := Execute(c, w, r, step).0;
            && r1.orders == r.orders + 1 && r1.wave == r.wave
            && |r.rows| <= |r1.rows| && r1.rows[..|r.rows|] == r.rows
            && OrdersBetween(r1.rows[|r.rows|..], r.orders, r1.orders)
  {
  }

  lemma FanOutOrders(c: Config, w: World, r: Run)
    requires NoDup(r.wave)
    ensures var r' := FanOut(c, w, r);
            && NoDup(r'.wave) && r.orders <= r'.orders
            && |r.rows| <= |r'.rows| && r'.rows[..|r.rows|] == r.rows
            && OrdersBetween(r'.rows[|r.rows|..], r.orders, r'.orders)
  {
    hide Finish, JoinPolicy, Dedup, HasStatus, Collected;
    if AllKnown(r.wave, Lookup(c.steps)) && r.transitions + |r.wave| <= c.maxTransitions {
      var order := FinishOrder(w, r.ticks, |r.wave|);
      FinishOrders(c, w, r.wave, r.orders, order);
      CollectedFacts(c, w, r.wave, r.orders, r.ticks);
      var results := Collected(c, w, r.wave, r.orders, r.ticks);
      DedupFacts(JoinPolicy(SubSteps(r.wave, Lookup(c.steps)), results, Lookup(c.steps)));
    }
  }

  /** All the rows of a run have different step orders, whatever the interleaving of parallel steps. */
  lemma {:induction false} RowOrdersDistinct(c: Config, w: World, wave: seq<string>, k: nat)
    requires NoDup(wave)
    ensures var r := After(c, w, Start(wave), k);
            NoDup(r.wave) && OrdersBetween(r.rows, 0, r.orders)
  {
    hide WaveStep;
    if k > 0 {
      RowOrdersDistinct(c, w, wave, k - 1);
      var r := After(c, w, Start(wave), k - 1);
      var r' := WaveStep(c, w, r);
      StepOrders(c, w, r);
      OrdersAppend(r.rows, r'.rows[|r.rows|..], r.orders, r'.orders);
      assert r'.rows == r.rows + r'.rows[|r.rows|..];
    }
  }

  lemma SequentialStepOrders(c: Config, w: World, r: Run)
    ensures var r' := SequentialStep(c, w, r);
            && r.orders <= r'.orders && |r.rows| <= |r'.rows| && r'.rows[..|r.rows|] == r.rows
            && OrdersBetween(r'.rows[|r.rows|..], r.orders, r'.orders)
  {
    hide Execute;
    if r.outcome.None? && r.ticks < |c.steps| {
      ExecuteOrders(c, w, r, c.steps[r.ticks]);
    }
  }

  /** So have those of a sequential run, whose steps may share ids. */
  lemma {:induction false} SequentialRowOrdersDistinct(c: Config, w: World, k: nat)
    ensures var r := SequentialAfter(c, w, Start([]), k);
            OrdersBetween(r.rows, 0, r.orders)
  {
    hide SequentialStep;
    if k > 0 {
      SequentialRowOrdersDistinct(c, w, k - 1);
      var r := SequentialAfter(c, w, Start([]), k - 1);
      var r' := SequentialStep(c, w, r);
      SequentialStepOrders(c, w, r);
      OrdersAppend(r.rows, r'.rows[|r.rows|..], r.orders, r'.orders);
      assert r'.rows == r.rows + r'.rows[|r.rows|..];
    }
  }

  /** The hypothesis is needed: a first wave that names a step twice gives two rows one number. */
  lemma RepeatedStepSharesOrder(c: Config, w: World, wave: seq<string>, i: nat, j: nat)
    requires i < j < |wave| && wave[i] == wave[j] && |wave| <= c.maxTransitions
    requires AllKnown(wave, Lookup(c.steps))
    requires !w.cancelled(0) && forall o, id :: w.attempt(o, id) == Skips
    ensures var rows := After(c, w, Start(wave), 1).rows;
            exists a, b :: 0 <= a < b < |rows| && rows[a].order == rows[b].order
  {
    hide After, Finish;
    var order := FinishOrder(w, 0, |wave|);
    var rows := Finish(c, w, wave, 0, order).0;
    FirstFanOutRows(c, w, wave);
    SkippingRows(c, w, wave, 0, order);
    var a := Position(order, |wave|, i);
    var b := Position(order, |wave|, j);
    var lo, hi := if a < b then a else b, if a < b then b else a;
    assert lo < hi && rows[lo].order == rows[hi].order;
  }

  lemma FirstFanOutRows(c: Config, w: World, wave: seq<string>)
    requires |wave| >= 2 && |wave| <= c.maxTransitions && AllKnown(wave, Lookup(c.steps)) && !w.cancelled(0)
    ensures After(c, w, Start(wave), 1).rows == Finish(c, w, wave, 0, FinishOrder(w, 0, |wave|)).0
  {
    hide Lookup, JoinPolicy, Dedup, FinishOrder, HasStatus, Single, NextStepIds, Collected;
    var r := Start(wave);
    assert After(c, w, r, 1) == WaveStep(c, w, After(c, w, r, 0)) == FanOut(c, w, r);
    assert FanOut(c, w, r).rows == [] + Finish(c, w, wave, 0, FinishOrder(w, 0, |wave|)).0;
  }

  lemma {:induction false} SkippingRows(c: Config, w: World, wave: seq<string>, base: nat, order: seq<nat>)
    requires AllKnown(wave, Lookup(c.steps))
    requires forall i :: 0 <= i < |order| ==> order[i] < |wave|
    requires forall o, id :: w.attempt(o, id) == Skips
    ensures var rows := Finish(c, w, wave, base, order).0;
            && |rows| == |order|
            && forall k :: 0 <= k < |rows| ==> rows[k] == Row(Allocated(wave, base, wave[order[k]]), wave[order[k]])
  {
    if order != [] {
      SkippingRows(c, w, wave, base, order[..|order| - 1]);
    }
  }

  /** A permutation reaches every index. */
  lemma Position(p: seq<nat>, n: nat, i: nat) returns (k: nat)
    requires IsPermutation(p, n) && i < n
    ensures k < n && p[k] == i
  {
    if forall k :: 0 <= k < n ==> p[k] != i {
      NatsFit(p, Below(n) - {i as int});
      assert false;
    }
    k :| 0 <= k < n && p[k] == i;
  }

  function Below(n: nat): (s: set<int>)
    ensures |s| == n && forall m :: m in s <==> 0 <= m < n
  {
    if n == 0 then {} else Below(n - 1) + {n - 1}
  }

  lemma {:induction false} NatsFit(p: seq<nat>, nums: set<int>)
    requires forall i :: 0 <= i < |p| ==> p[i] in nums
    requires forall i, j :: 0 <= i < j < |p| ==> p[i] != p[j]
    ensures |p| <= |nums|
  {
    if p != [] {
      NatsFit(p[..|p| - 1], nums - {p[|p| - 1]});
    }
  }
}
