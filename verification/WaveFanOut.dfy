/** What one iteration of the wave loop does with a wave of several steps. */
module WaveFanOut {
  import opened Workflow
  import opened Routing
  import opened WaveRun
  import opened WaveOutcomes
  import opened WaveTimeout

  /** An attempt leaves a row unless it raised before it could. */
  predicate LeavesRow(a: Attempt) {
    a != NoHandler && a != Throws
  }

  /** The step that finishes j-th, attempted as number base + 1 + i, its last place in the wave being i. */
  ghost predicate Tried(w: World, r: Run, j: nat, row: Row, a: Attempt) {
    var order := FinishOrder(w, r.ticks, |r.wave|);
    && j < |order| && row.stepId == r.wave[order[j]]
    && (exists i :: IsLast(r.wave, i, row.stepId) && row.order == r.orders + 1 + i)
    && a == w.attempt(row.order, row.stepId)
  }

  /** Row i is that of the step that finishes as number at[i]; no other of the first n to finish leaves one. */
  ghost predicate RowsTell(w: World, r: Run, rows: seq<Row>, at: seq<nat>, n: nat) {
    && |at| == |rows|
    && (forall i, j :: 0 <= i < j < |at| ==> at[i] < at[j])
    && (forall i :: 0 <= i < |at| ==>
        at[i] < n && exists a :: Tried(w, r, at[i], rows[i], a) && LeavesRow(a))
    && (forall j, row, a :: 0 <= j < n && j !in at && Tried(w, r, j, row, a) ==> !LeavesRow(a))
  }

  lemma TriedOne(w: World, r: Run, j: nat)
    requires j < |r.wave|
    ensures var id := r.wave[FinishOrder(w, r.ticks, |r.wave|)[j]];
            var o := Allocated(r.wave, r.orders, id);
            && Tried(w, r, j, Row(o, id), w.attempt(o, id))
            && forall row, a :: Tried(w, r, j, row, a) ==> row == Row(o, id) && a == w.attempt(o, id)
  {
    hide FinishOrder;
    var id := r.wave[FinishOrder(w, r.ticks, |r.wave|)[j]];
    LastIndexIsLast(r.wave, id);
  }

  lemma {:induction false} FinishRows(c: Config, w: World, r: Run, n: nat) returns (at: seq<nat>)
    requires AllKnown(r.wave, Lookup(c.steps)) && n <= |r.wave|
    ensures RowsTell(w, r, Finish(c, w, r.wave, r.orders, FinishOrder(w, r.ticks, |r.wave|)[..n]).0, at, n)
  {
    hide Lookup, FinishOrder, Finish, RowsTell, ParallelBranch, Allocated;
    var order := FinishOrder(w, r.ticks, |r.wave|);
    if n == 0 {
      FinishesNone(c, w, r.wave, r.orders);
      at := [];
      NoRows(w, r);
    } else {
      var before := FinishRows(c, w, r, n - 1);
      FinishesOne(c, w, r.wave, r.orders, order, n - 1);
      at := OneMore(w, r, Finish(c, w, r.wave, r.orders, order[..n - 1]).0, before, n - 1);
    }
  }

  lemma NoRows(w: World, r: Run)
    ensures RowsTell(w, r, [], [], 0)
  {
  }

  lemma OneMore(w: World, r: Run, rows: seq<Row>, before: seq<nat>, n: nat) returns (at: seq<nat>)
    requires n < |r.wave| && RowsTell(w, r, rows, before, n)
    ensures var id := r.wave[FinishOrder(w, r.ticks, |r.wave|)[n]];
            var o := Allocated(r.wave, r.orders, id);
            RowsTell(w, r, rows + if WritesRow(w.attempt(o, id)) then [Row(o, id)] else [], at, n + 1)
  {
    hide FinishOrder, Tried, LeavesRow, WritesRow, Allocated;
    TriedOne(w, r, n);
    var id := r.wave[FinishOrder(w, r.ticks, |r.wave|)[n]];
    var a := w.attempt(Allocated(r.wave, r.orders, id), id);
    RowLeft(a);
    at := if WritesRow(a) then before + [n] else before;
  }

  lemma RowLeft(a: Attempt)
    ensures WritesRow(a) == LeavesRow(a)
  {
  }

  // ---------- the iteration ----------

  ghost predicate SomeReturned(results: Results, s: Status) {
    exists id :: id in results.at && results.at[id].status == s
  }

  /** The steps of the wave, in its order. */
  ghost predicate StepsOf(c: Config, wave: seq<string>, steps: seq<Step>) {
    && |steps| == |wave|
    && forall i :: 0 <= i < |wave| ==> wave[i] in Lookup(c.steps) && steps[i] == Lookup(c.steps)[wave[i]]
  }

  /** Where the run goes when the fan-out is over. */
  ghost predicate GoesFrom(c: Config, steps: seq<Step>, over: Run, results: Results, r': Run) {
    if SomeReturned(results, Cancelled) then r' == over.(outcome := Some(Done(Cancelled)))
    else if exists t :: IsNext(results, t) && LetsRun(steps, results, Lookup(c.steps), t) then
      && r' == over.(wave := r'.wave) && NoDup(r'.wave)
      && (exists all :: InTurn(results, all) && KeepsOrder(all, r'.wave))
      && forall t :: t in r'.wave <==> IsNext(results, t) && LetsRun(steps, results, Lookup(c.steps), t)
    else if SomeReturned(results, Failed) then r' == over.(outcome := Some(Done(Failed)))
    else r' == over.(wave := [], outcome := Some(Done(Completed)))
  }

  ghost predicate AllHeard(c: Config, w: World, r: Run, results: Results) {
    (forall id :: Heard(c, w, r, id, results)) && HeardInTurn(w, r, results)
  }

  /** Results are held in the order in which the steps finish, those of pending steps after them, in wave order. */
  ghost predicate HeardInTurn(w: World, r: Run, results: Results) {
    var n := |r.wave|;
    var order := FinishOrder(w, r.ticks, n);
    && NoDup(results.keys) && (forall id :: id in results.keys <==> id in results.at)
    && KeepsOrder(IdsAt(r.wave, order[..InTime(w, r.ticks, n)])
                  + PendingIds(r.wave, order[NotPending(w, r.ticks, n)..], n), results.keys)
  }

  function IdsAt(wave: seq<string>, order: seq<nat>): seq<string>
    requires forall i :: 0 <= i < |order| ==> order[i] < |wave|
  {
    seq(|order|, i requires 0 <= i < |order| => wave[order[i]])
  }

  /** The pending ids among the first n of the wave, in its order. */
  function PendingIds(wave: seq<string>, pending: seq<nat>, n: nat): seq<string>
    requires n <= |wave|
  {
    if n == 0 then [] else PendingIds(wave, pending, n - 1) + if n - 1 in pending then [wave[n - 1]] else []
  }

  lemma {:induction false} FinishKeys(c: Config, w: World, wave: seq<string>, base: nat, order: seq<nat>)
    requires AllKnown(wave, Lookup(c.steps)) && forall i :: 0 <= i < |order| ==> order[i] < |wave|
    ensures Finish(c, w, wave, base, order).1.keys == Dedup(IdsAt(wave, order))
  {
    hide Lookup, Allocated, ParallelBranch;
    if order != [] {
      var n := |order| - 1;
      FinishKeys(c, w, wave, base, order[..n]);
      FinishValid(c, w, wave, base, order[..n]);
      assert IdsAt(wave, order)[..n] == IdsAt(wave, order[..n]);
    }
  }

  lemma {:induction false} PendingKeys(results: Results, wave: seq<string>, pending: seq<nat>, n: nat, ids: seq<string>)
    requires n <= |wave| && results.Valid() && results.keys == Dedup(ids)
    ensures PutPending(results, wave, pending, n).keys == Dedup(ids + PendingIds(wave, pending, n))
  {
    if n == 0 {
      assert ids + [] == ids;
    } else {
      PendingKeys(results, wave, pending, n - 1, ids);
      PendingFacts(results, wave, pending, n - 1);
      hide Dedup, PutPending;
      OnePending(results, wave, pending, n - 1);
      if n - 1 in pending {
        assert ids + PendingIds(wave, pending, n) == (ids + PendingIds(wave, pending, n - 1)) + [wave[n - 1]];
        DedupSnoc(ids + PendingIds(wave, pending, n - 1), wave[n - 1]);
      } else {
        assert PendingIds(wave, pending, n) == PendingIds(wave, pending, n - 1);
      }
    }
  }

  lemma DedupSnoc(ids: seq<string>, id: string)
    ensures Dedup(ids + [id]) == if id in Dedup(ids) then Dedup(ids) else Dedup(ids) + [id]
  {
    assert (ids + [id])[..|ids|] == ids;
  }

  lemma CollectedInTurn(c: Config, w: World, r: Run)
    requires AllKnown(r.wave, Lookup(c.steps))
    ensures HeardInTurn(w, r, Collected(c, w, r.wave, r.orders, r.ticks))
  {
    hide Lookup, Finish, PutPending, FinishOrder, InTime, NotPending, KeepsOrder, Dedup, IdsAt, PendingIds;
    var n := |r.wave|;
    var order, y, d := FinishOrder(w, r.ticks, n), InTime(w, r.ticks, n), NotPending(w, r.ticks, n);
    FinishKeys(c, w, r.wave, r.orders, order[..y]);
    FinishValid(c, w, r.wave, r.orders, order[..y]);
    PendingKeys(Finish(c, w, r.wave, r.orders, order[..y]).1, r.wave, order[d..], n, IdsAt(r.wave, order[..y]));
    CollectedFacts(c, w, r.wave, r.orders, r.ticks);
    DedupOrder(IdsAt(r.wave, order[..y]) + PendingIds(r.wave, order[d..], n));
  }

  /** All steps are attempted, in the order they finish; the run then follows what the runtime holds of each. */
  ghost predicate AllTried(c: Config, w: World, r: Run, r': Run) {
    var n := |r.wave|;
    exists rows, at, results, steps ::
      && RowsTell(w, r, rows, at, n) && StepsOf(c, r.wave, steps) && AllHeard(c, w, r, results)
      && GoesFrom(c, steps,
                  r.(transitions := r.transitions + n, orders := r.orders + n, dispatched := r.dispatched + r.wave,
                     rows := r.rows + rows, ticks := r.ticks + 1), results, r')
  }

  lemma CollectGoes(c: Config, steps: seq<Step>, over: Run, results: Results)
    requires results.Valid()
    ensures GoesFrom(c, steps, over, results, Collect(c, over, steps, results))
  {
    hide Lookup, Dedup, JoinPolicy, IsNext, LetsRun, InTurn, KeepsOrder;
    var next := JoinPolicy(steps, results, Lookup(c.steps));
    PoliciesDecide(steps, results, Lookup(c.steps));
    DedupFacts(next);
    DedupSame(next);
    assert next != [] ==> next[0] in next;
    assert Dedup(next) != [] ==> Dedup(next)[0] in next;
    assert SomeReturned(results, Cancelled) == HasStatus(results, Cancelled);
    assert SomeReturned(results, Failed) == HasStatus(results, Failed);
  }

  /** What an iteration makes of a wave of several steps. */
  lemma FanOutTells(c: Config, w: World, r: Run)
    requires r.outcome.None? && |r.wave| >= 2
    ensures var r', n := WaveStep(c, w, r), |r.wave|;
            if w.cancelled(r.ticks) then r' == r.(outcome := Some(Done(Cancelled)))
            else if exists id :: id in r.wave && id !in Lookup(c.steps) then r' == r.(outcome := Some(Done(Failed)))
            else if r.transitions + n > c.maxTransitions then
              r' == r.(transitions := r.transitions + n, orders := r.orders + n, outcome := Some(Done(Failed)))
            else AllTried(c, w, r, r')
  {
    hide Lookup, Finish, FinishOrder, Collect, Collected, GoesFrom, Heard, RowsTell, HeardInTurn;
    var n, lookup := |r.wave|, Lookup(c.steps);
    if !w.cancelled(r.ticks) && AllKnown(r.wave, lookup) && r.transitions + n <= c.maxTransitions {
      var order := FinishOrder(w, r.ticks, n);
      var at := FinishRows(c, w, r, n);
      assert order[..n] == order;
      var rows := Finish(c, w, r.wave, r.orders, order).0;
      CollectedFacts(c, w, r.wave, r.orders, r.ticks);
      var results := Collected(c, w, r.wave, r.orders, r.ticks);
      forall id
        ensures Heard(c, w, r, id, results)
      {
        ResultsHeard(c, w, r, id);
      }
      CollectedInTurn(c, w, r);
      var steps := SubSteps(r.wave, lookup);
      var over := r.(transitions := r.transitions + n, orders := r.orders + n, dispatched := r.dispatched + r.wave,
                     rows := r.rows + rows, ticks := r.ticks + 1);
      CollectGoes(c, steps, over, results);
      assert StepsOf(c, r.wave, steps) && AllHeard(c, w, r, results) && RowsTell(w, r, rows, at, n);
      assert WaveStep(c, w, r) == Collect(c, over, steps, results);
      assert GoesFrom(c, steps, over, results, WaveStep(c, w, r));
    }
  }
}
