/** The runtime's walk over a workflow, wave by wave, as functions on the run state.
    Everything outside the runtime (cancellation answers, what a step does when it is attempted,
    the order in which parallel steps finish) comes from a World, so a statement about every World
    is a statement about every run. */
module WaveRun {
  import opened Workflow
  import opened Routing
  import opened Text

  /** What happens when a step is attempted: its condition is false; its gate waits; it returns a
      status (an exception inside a handler counts as Failed); its type has no handler; the preparation
      before the handler throws; or what follows the handler does, after the row has been written. */
  datatype Attempt = Skips | Waits | Returns(status: Status) | NoHandler | Throws | Breaks

  /** cancelled(k): the answer of the k-th cancellation check of the run.
      attempt(o, id): what step id does when it is attempted with step order o.
      finishing(k, n): the order in which the n steps of the k-th wave finish.
      timeout(k, n): how many of them have been collected when the wave times out, and how many have finished when
      the runtime then looks who is pending; n and n without a timeout. */
  datatype World = World(cancelled: nat -> bool, attempt: (nat, string) -> Attempt, finishing: (nat, nat) -> seq<nat>,
      timeout: (nat, nat) -> (nat, nat))

  predicate IsPermutation(p: seq<nat>, n: nat) {
    |p| == n && (forall i :: 0 <= i < n ==> p[i] < n) && (forall i, j :: 0 <= i < j < n ==> p[i] != p[j])
  }

  function FinishOrder(w: World, k: nat, n: nat): (p: seq<nat>)
    ensures IsPermutation(p, n)
  {
    var p := w.finishing(k, n);
    if IsPermutation(p, n) then p else seq(n, i => i)
  }

  /** How many of the n steps of the k-th wave are collected. */
  function InTime(w: World, k: nat, n: nat): (collected: nat)
    ensures collected <= n
  {
    if w.timeout(k, n).0 <= n then w.timeout(k, n).0 else n
  }

  /** How many are not taken for pending: those that finish between the timeout and the look are in no result. */
  function NotPending(w: World, k: nat, n: nat): (done: nat)
    ensures InTime(w, k, n) <= done <= n
  {
    var collected, done := InTime(w, k, n), w.timeout(k, n).1;
    if collected == n || done > n then n else if done < collected then collected else done
  }

  datatype Config = Config(steps: seq<Step>, maxTransitions: nat)

  datatype Outcome = Done(status: Status) | Paused | Crashed

  /** An ExecutionStep row written by the runtime. */
  datatype Row = Row(order: nat, stepId: string)

  /** ticks counts loop iterations; dispatched lists the steps attempted, past the transition cap. */
  datatype Run = Run(wave: seq<string>, ticks: nat, transitions: nat, orders: nat,
                     rows: seq<Row>, dispatched: seq<string>, outcome: Option<Outcome>)

  function Ended(r: Run, o: Outcome): Run {
    r.(outcome := Some(o))
  }

  function WritesRow(a: Attempt): bool {
    a.Skips? || a.Waits? || a.Returns? || a.Breaks?
  }

  /** One step outside a fan-out. None: an exception leaves the runtime. */
  function Execute(c: Config, w: World, r: Run, step: Step): (Run, Option<Status>) {
    var r1 := r.(transitions := r.transitions + 1, orders := r.orders + 1);
    if r1.transitions > c.maxTransitions then (r1, Some(Failed)) else
      var a := w.attempt(r1.orders, step.stepId);
      var r2 := r1.(dispatched := r1.dispatched + [step.stepId],
                    rows := r1.rows + if WritesRow(a) then [Row(r1.orders, step.stepId)] else []);
      match a
      case Skips => (r2, Some(Completed))
      case Waits => (r2, Some(Running))
      case Returns(s) => (r2, Some(s))
      case NoHandler => (r2, None)
      case Throws => (r2, None)
      case Breaks => (r2, None)
  }

  /** The status of a step attempted inside a fan-out; a waiting gate counts as failed there. */
  function ParallelStatus(a: Attempt): Status {
    match a
    case Skips => Completed
    case Returns(s) => s
    case Waits => Failed
    case NoHandler => Failed
    case Throws => Failed
    case Breaks => Failed
  }

  function ParallelBranch(c: Config, a: Attempt, step: Step): Branch {
    if a.Throws? || a.Breaks? then Branch(Failed, [])
      else Branch(ParallelStatus(a), NextStepIds(step, ParallelStatus(a), c.steps))
  }

  /** The index of the last occurrence of id. */
  function LastIndex(wave: seq<string>, id: string): (i: nat)
    requires id in wave
    ensures i < |wave| && wave[i] == id
  {
    if wave[|wave| - 1] == id then |wave| - 1 else LastIndex(wave[..|wave| - 1], id)
  }

  /** The step order pre-allocated to step id when the counter stood at base. */
  function Allocated(wave: seq<string>, base: nat, id: string): nat
    requires id in wave
  {
    base + 1 + LastIndex(wave, id)
  }

  predicate AllKnown(wave: seq<string>, lookup: map<string, Step>) {
    forall id :: id in wave ==> id in lookup
  }

  function SubSteps(wave: seq<string>, lookup: map<string, Step>): seq<Step>
    requires AllKnown(wave, lookup)
  {
    seq(|wave|, i requires 0 <= i < |wave| => lookup[wave[i]])
  }

  /** The parallel steps in the order they finish: their rows and their results. */
  function Finish(c: Config, w: World, wave: seq<string>, base: nat, order: seq<nat>): (seq<Row>, Results)
    requires AllKnown(wave, Lookup(c.steps))
    requires forall i :: 0 <= i < |order| ==> order[i] < |wave|
  {
    if order == [] then ([], NO_RESULTS) else
      var (rows, results) := Finish(c, w, wave, base, order[..|order| - 1]);
      var id := wave[order[|order| - 1]];
      var o := Allocated(wave, base, id);
      var a := w.attempt(o, id);
      (rows + (if WritesRow(a) then [Row(o, id)] else []),
       results.Put(id, ParallelBranch(c, a, Lookup(c.steps)[id])))
  }

  lemma FinishesNone(c: Config, w: World, wave: seq<string>, base: nat)
    requires AllKnown(wave, Lookup(c.steps))
    ensures forall order: seq<nat> :: order == [] ==> Finish(c, w, wave, base, order) == ([], NO_RESULTS)
  {
  }

  /** One more step of a fan-out finishes. */
  lemma FinishesOne(c: Config, w: World, wave: seq<string>, base: nat, order: seq<nat>, i: nat)
    requires AllKnown(wave, Lookup(c.steps)) && i < |order|
    requires forall k :: 0 <= k < |order| ==> order[k] < |wave|
    ensures var (rows, results) := Finish(c, w, wave, base, order[..i]);
            var id := wave[order[i]];
            var o := Allocated(wave, base, id);
            var a := w.attempt(o, id);
            Finish(c, w, wave, base, order[..i + 1]) ==
              (rows + (if WritesRow(a) then [Row(o, id)] else []),
                results.Put(id, ParallelBranch(c, a, Lookup(c.steps)[id])))
  {
    hide Lookup, Allocated, ParallelBranch;
    assert order[..i + 1][..i] == order[..i];
  }

  lemma {:induction false} FinishValid(c: Config, w: World, wave: seq<string>, base: nat, order: seq<nat>)
    requires AllKnown(wave, Lookup(c.steps))
    requires forall i :: 0 <= i < |order| ==> order[i] < |wave|
    ensures Finish(c, w, wave, base, order).1.Valid()
  {
    if order != [] {
      FinishValid(c, w, wave, base, order[..|order| - 1]);
    }
  }

  /** Steps still pending at the timeout count as failed, in the order of the wave. */
  function PutPending(results: Results, wave: seq<string>, pending: seq<nat>, n: nat): Results
    requires n <= |wave|
  {
    if n == 0 then results else
      var before := PutPending(results, wave, pending, n - 1);
      if n - 1 in pending then before.Put(wave[n - 1], Branch(Failed, [])) else before
  }

  /** What the runtime holds of a wave's steps when it goes on. */
  function Collected(c: Config, w: World, wave: seq<string>, base: nat, k: nat): Results
    requires AllKnown(wave, Lookup(c.steps))
  {
    var n := |wave|;
    var order := FinishOrder(w, k, n);
    PutPending(Finish(c, w, wave, base, order[..InTime(w, k, n)]).1, wave, order[NotPending(w, k, n)..], n)
  }

  lemma {:induction false} FinishInWave(c: Config, w: World, wave: seq<string>, base: nat, order: seq<nat>)
    requires AllKnown(wave, Lookup(c.steps))
    requires forall i :: 0 <= i < |order| ==> order[i] < |wave|
    ensures forall id :: id in Finish(c, w, wave, base, order).1.at ==> id in wave
  {
    if order != [] {
      FinishInWave(c, w, wave, base, order[..|order| - 1]);
    }
  }

  lemma {:induction false} PendingFacts(results: Results, wave: seq<string>, pending: seq<nat>, n: nat)
    requires n <= |wave| && results.Valid()
    ensures var all := PutPending(results, wave, pending, n);
            && all.Valid() && (forall id :: id in results.at ==> id in all.at)
            && (forall id :: id in all.at ==>
                (id in wave && all.at[id] == Branch(Failed, [])) || (id in results.at && all.at[id] == results.at[id]))
            && (pending == [] ==> all == results)
  {
    if n > 0 {
      PendingFacts(results, wave, pending, n - 1);
    }
  }

  lemma NothingPending(results: Results, wave: seq<string>, pending: seq<nat>)
    ensures PutPending(results, wave, pending, 0) == results
  {
  }

  lemma OnePending(results: Results, wave: seq<string>, pending: seq<nat>, i: nat)
    requires i < |wave|
    ensures var before := PutPending(results, wave, pending, i);
            PutPending(results, wave, pending, i + 1) ==
              if i in pending then before.Put(wave[i], Branch(Failed, [])) else before
  {
  }

  /** Every result is that of a collected step, or that of a pending one: failed, and leading nowhere. */
  lemma CollectedFacts(c: Config, w: World, wave: seq<string>, base: nat, k: nat)
    requires AllKnown(wave, Lookup(c.steps))
    ensures var at := Finish(c, w, wave, base, FinishOrder(w, k, |wave|)[..InTime(w, k, |wave|)]).1.at;
            var results := Collected(c, w, wave, base, k);
            && results.Valid()
            && (forall id :: id in results.at ==>
                id in wave && (results.at[id] == Branch(Failed, []) || (id in at && results.at[id] == at[id])))
            && (InTime(w, k, |wave|) == |wave| ==> results == Finish(c, w, wave, base, FinishOrder(w, k, |wave|)).1)
  {
    hide Lookup, Finish, PutPending, FinishOrder;
    var n := |wave|;
    var order := FinishOrder(w, k, n);
    var y := InTime(w, k, n);
    FinishValid(c, w, wave, base, order[..y]);
    FinishInWave(c, w, wave, base, order[..y]);
    PendingFacts(Finish(c, w, wave, base, order[..y]).1, wave, order[NotPending(w, k, n)..], n);
    if y == n {
      assert order[..n] == order;
    }
  }

  predicate HasStatus(results: Results, s: Status) {
    exists id :: id in results.at && results.at[id].status == s
  }

  /** The run after the parallel steps have all finished with the given results. */
  function Collect(c: Config, r: Run, wave: seq<Step>, results: Results): Run
    requires results.Valid()
  {
    if HasStatus(results, Cancelled) then Ended(r, Done(Cancelled)) else
      var next := JoinPolicy(wave, results, Lookup(c.steps));
      if next == [] && HasStatus(results, Failed) then Ended(r, Done(Failed)) else Continue(r, next)
  }

  /** The loop ends with Completed when the next wave is empty. */
  function Continue(r: Run, next: seq<string>): Run {
    var wave := Dedup(next);
    if wave == [] then Ended(r.(wave := []), Done(Completed)) else r.(wave := wave)
  }

  function FanOut(c: Config, w: World, r: Run): Run {
    if !AllKnown(r.wave, Lookup(c.steps)) then Ended(r, Done(Failed)) else
      var n := |r.wave|;
      var r1 := r.(transitions := r.transitions + n, orders := r.orders + n);
      if r1.transitions > c.maxTransitions then Ended(r1, Done(Failed)) else
        var rows := Finish(c, w, r.wave, r.orders, FinishOrder(w, r.ticks, n)).0;
        var results := Collected(c, w, r.wave, r.orders, r.ticks);
        CollectedFacts(c, w, r.wave, r.orders, r.ticks);
        var r2 := r1.(dispatched := r1.dispatched + r.wave, rows := r1.rows + rows, ticks := r1.ticks + 1);
        Collect(c, r2, SubSteps(r.wave, Lookup(c.steps)), results)
  }

  function Single(c: Config, w: World, r: Run): Run
    requires |r.wave| == 1
  {
    if r.wave[0] !in Lookup(c.steps) then Ended(r, Done(Failed)) else
      var step := Lookup(c.steps)[r.wave[0]];
      var (r1, status) := Execute(c, w, r, step);
      if status == None then Ended(r1, Crashed)
      else if status == Some(Running) then Ended(r1, Paused)
      else if status == Some(Cancelled) then Ended(r1, Done(Cancelled))
      else
        var next := NextStepIds(step, status.value, c.steps);
        if status == Some(Failed) && next == [] then Ended(r1, Done(Failed))
        else Continue(r1.(ticks := r1.ticks + 1), next)
  }

  /** One iteration of the wave loop; a run that has ended stays as it is. */
  function WaveStep(c: Config, w: World, r: Run): Run {
    if r.outcome.Some? then r
    else if r.wave == [] then Ended(r, Done(Completed))
    else if w.cancelled(r.ticks) then Ended(r, Done(Cancelled))
    else if |r.wave| == 1 then Single(c, w, r)
    else FanOut(c, w, r)
  }

  /** The run after k iterations. */
  function After(c: Config, w: World, r: Run, k: nat): Run {
    if k == 0 then r else WaveStep(c, w, After(c, w, r, k - 1))
  }

  function Start(wave: seq<string>): Run {
    Run(wave, 0, 0, 0, [], [], None)
  }

  /** Step ids some branch list mentions, stripped. */
  function StrippedTargets(steps: seq<Step>): set<string> {
    set i, t | 0 <= i < |steps| && t in steps[i].SuccessIds() + steps[i].ErrorIds() && !Blank(t) :: Strip(t)
  }

  /** The steps no branch list mentions, in list order. */
  function EntriesAmong(steps: seq<Step>, targets: set<string>): seq<string> {
    if steps == [] then [] else
      var init := EntriesAmong(steps[..|steps| - 1], targets);
      var id := steps[|steps| - 1].stepId;
      if !Blank(id) && id !in targets then init + [id] else init
  }

  /** String order as Python compares strings. */
  predicate StringLess(a: string, b: string) {
    if b == "" then false
    else if a == "" then true
    else a[0] < b[0] || (a[0] == b[0] && StringLess(a[1..], b[1..]))
  }

  /** The step of least (order, id) among those whose id is listed. */
  function FirstListed(steps: seq<Step>, ids: seq<string>): Option<Step> {
    if steps == [] then None else
      var init := FirstListed(steps[..|steps| - 1], ids);
      var last := steps[|steps| - 1];
      if last.stepId !in ids then init
      else if init == None || last.order < init.value.order
              || (last.order == init.value.order && StringLess(last.stepId, init.value.stepId)) then Some(last)
      else init
  }

  function EntryStepIds(steps: seq<Step>): seq<string> {
    var targets := StrippedTargets(steps);
    var entries := EntriesAmong(steps, targets);
    if entries != [] && targets == {} then
      var first := FirstListed(steps, entries);
      if first == None then entries else [first.value.stepId]
    else entries
  }

  /** The first wave; None: no step has an id, the sequential executor takes over.
      resume is the wave set when a run resumes after a gate. */
  function InitialWave(steps: seq<Step>, resume: seq<string>): Option<seq<string>>
    requires steps != []
  {
    var lookup := Lookup(steps);
    if resume != [] then Some(Known(resume, lookup)) else
      var entries := EntryStepIds(steps);
      var wave :=
        if entries != [] then Known(entries, lookup)
        else if FirstByOrder(steps).stepId == "" then [] else [FirstByOrder(steps).stepId];
      if wave == [] then None else Some(wave)
  }

  /** The sequential executor's i-th iteration; r.ticks is i. */
  function SequentialStep(c: Config, w: World, r: Run): Run {
    if r.outcome.Some? then r
    else if r.ticks >= |c.steps| then Ended(r, Done(Completed))
    else if w.cancelled(r.ticks) then Ended(r, Done(Cancelled))
    else
      var (r1, status) := Execute(c, w, r, c.steps[r.ticks]);
      if status == None then Ended(r1, Crashed)
      else if status == Some(Running) then Ended(r1, Paused)
      else if status == Some(Failed) then Ended(r1, Done(Failed))
      else if status == Some(Cancelled) then Ended(r1, Done(Cancelled))
      else r1.(ticks := r1.ticks + 1)
  }

  function SequentialAfter(c: Config, w: World, r: Run, k: nat): Run {
    if k == 0 then r else SequentialStep(c, w, SequentialAfter(c, w, r, k - 1))
  }
}
