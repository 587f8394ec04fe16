/** The validator's search for gate steps inside parallel branches: a breadth-first search
    from the targets of every fan-out list that stops at join points. */
module GateCheck {
  import opened Workflow

  /** Every branch target of every step, one occurrence per mention. */
  function AllTargets(steps: seq<Step>): seq<string> {
    if steps == [] then [] else
      var last := steps[|steps| - 1];
      AllTargets(steps[..|steps| - 1]) + last.SuccessIds() + last.ErrorIds()
  }

  /** How many times a step is mentioned as a branch target. */
  function InDegree(steps: seq<Step>, id: string): nat {
    multiset(AllTargets(steps))[id]
  }

  function JoinPoints(steps: seq<Step>, stepIds: set<string>): set<string> {
    set id | id in stepIds && InDegree(steps, id) >= 2
  }

  function Next(stepMap: map<string, Step>, id: string): seq<string> {
    if id in stepMap then stepMap[id].SuccessIds() + stepMap[id].ErrorIds() else []
  }

  /** A path through a parallel branch: it starts at one of the fan-out targets,
      follows branch lists and touches no join point. */
  ghost predicate BranchPath(stepMap: map<string, Step>, joins: set<string>, ids: seq<string>, p: seq<string>) {
    && |p| > 0 && p[0] in ids
    && (forall i :: 0 <= i < |p| ==> p[i] !in joins)
    && (forall i :: 0 <= i < |p| - 1 ==> p[i + 1] in Next(stepMap, p[i]))
  }

  ghost predicate Reached(stepMap: map<string, Step>, joins: set<string>, ids: seq<string>, id: string) {
    exists p :: BranchPath(stepMap, joins, ids, p) && p[|p| - 1] == id
  }

  predicate IsGateId(stepMap: map<string, Step>, id: string) {
    id in stepMap && stepMap[id].IsGate()
  }

  /** Some list with at least two targets leads to a gate inside a branch. */
  ghost predicate BranchHasGate(stepMap: map<string, Step>, joins: set<string>, ids: seq<string>) {
    |ids| >= 2 && exists g :: IsGateId(stepMap, g) && Reached(stepMap, joins, ids, g)
  }

  ghost predicate GateInFanOut(steps: seq<Step>, stepIds: set<string>) {
    var joins := JoinPoints(steps, stepIds);
    exists s :: s in steps &&
      (BranchHasGate(Lookup(steps), joins, s.SuccessIds()) || BranchHasGate(Lookup(steps), joins, s.ErrorIds()))
  }

  /** A fan-out of a step called origin leads to the gate inside a branch. */
  ghost predicate LeadsToGate(steps: seq<Step>, stepIds: set<string>, gate: string, origin: string) {
    var joins := JoinPoints(steps, stepIds);
    IsGateId(Lookup(steps), gate) &&
    exists s :: s in steps && s.stepId == origin &&
      ((|s.SuccessIds()| >= 2 && Reached(Lookup(steps), joins, s.SuccessIds(), gate))
       || (|s.ErrorIds()| >= 2 && Reached(Lookup(steps), joins, s.ErrorIds(), gate)))
  }

  lemma ReachedStart(stepMap: map<string, Step>, joins: set<string>, ids: seq<string>, id: string)
    requires id in ids && id !in joins
    ensures Reached(stepMap, joins, ids, id)
  {
    assert BranchPath(stepMap, joins, ids, [id]);
  }

  lemma ReachedNext(stepMap: map<string, Step>, joins: set<string>, ids: seq<string>, u: string, v: string)
    requires Reached(stepMap, joins, ids, u) && v in Next(stepMap, u) && v !in joins
    ensures Reached(stepMap, joins, ids, v)
  {
    var p :| BranchPath(stepMap, joins, ids, p) && p[|p| - 1] == u;
    assert BranchPath(stepMap, joins, ids, p + [v]);
  }

  /** A set that holds the non-join targets and is closed under non-join successors holds every reached step. */
  lemma {:induction false} ClosedHoldsPath(stepMap: map<string, Step>, joins: set<string>, ids: seq<string>,
                                           closed: set<string>, p: seq<string>)
    requires BranchPath(stepMap, joins, ids, p)
    requires forall t :: t in ids && t !in joins ==> t in closed
    requires forall u, v :: u in closed && v in Next(stepMap, u) && v !in joins ==> v in closed
    ensures p[|p| - 1] in closed
  {
    if |p| > 1 {
      var last := |p| - 1;
      ClosedHoldsPath(stepMap, joins, ids, closed, p[..last]);
      assert p[last - 1 + 1] in Next(stepMap, p[last - 1]);
    }
  }

  method CountInDegrees(steps: seq<Step>, stepIds: set<string>) returns (inDegree: map<string, nat>)
    ensures inDegree.Keys == stepIds
    ensures forall id :: id in stepIds ==> inDegree[id] == InDegree(steps, id)
  {
    inDegree := map id | id in stepIds :: 0;
    for i := 0 to |steps|
      invariant inDegree.Keys == stepIds
      invariant forall id :: id in stepIds ==> inDegree[id] == InDegree(steps[..i], id)
    {
      inDegree := AddTargets(inDegree, steps[i].SuccessIds());
      inDegree := AddTargets(inDegree, steps[i].ErrorIds());
      assert steps[..i + 1][..i] == steps[..i];
    }
    assert steps[..|steps|] == steps;
  }

  method AddTargets(inDegree0: map<string, nat>, targets: seq<string>) returns (inDegree: map<string, nat>)
    ensures inDegree.Keys == inDegree0.Keys
    ensures forall id :: id in inDegree0 ==> inDegree[id] == inDegree0[id] + multiset(targets)[id]
  {
    inDegree := inDegree0;
    for k := 0 to |targets|
      invariant inDegree.Keys == inDegree0.Keys
      invariant forall id :: id in inDegree0 ==> inDegree[id] == inDegree0[id] + multiset(targets[..k])[id]
    {
      assert targets[..k + 1] == targets[..k] + [targets[k]];
      if targets[k] in inDegree {
        inDegree := inDegree[targets[k] := inDegree[targets[k]] + 1];
      }
    }
    assert targets[..|targets|] == targets;
  }

  method Enqueue(queue0: seq<string>, next: seq<string>, visited: set<string>, joins: set<string>)
    returns (queue: seq<string>)
    ensures forall v :: v in queue <==> v in queue0 || (v in next && v !in visited && v !in joins)
  {
    queue := queue0;
    for k := 0 to |next|
      invariant forall v :: v in queue <==> v in queue0 || (v in next[..k] && v !in visited && v !in joins)
    {
      assert next[..k + 1] == next[..k] + [next[k]];
      if next[k] !in visited && next[k] !in joins {
        queue := queue + [next[k]];
      }
    }
    assert next[..|next|] == next;
  }

  /** Searches the branches that start at ids. Some(g): g is a gate found inside a branch. */
  method SearchBranches(stepMap: map<string, Step>, joins: set<string>, ids: seq<string>)
    returns (gate: Option<string>)
    ensures gate.Some? ==> IsGateId(stepMap, gate.value) && Reached(stepMap, joins, ids, gate.value)
    ensures gate.None? ==> forall g :: IsGateId(stepMap, g) ==> !Reached(stepMap, joins, ids, g)
  {
    ghost var reach := iset v | Reached(stepMap, joins, ids, v);
    forall t | t in ids && t !in joins
      ensures t in reach
    {
      ReachedStart(stepMap, joins, ids, t);
    }
    forall u, v | u in reach && v in Next(stepMap, u) && v !in joins
      ensures v in reach
    {
      ReachedNext(stepMap, joins, ids, u, v);
    }
    ghost var all := (set t | t in ids) + set u, v | u in stepMap && v in Next(stepMap, u) :: v;
    ghost var visited;
    gate, visited := BreadthFirst(stepMap, joins, ids, reach, all);
    if gate.None? {
      NoGateReached(stepMap, joins, ids, visited);
    }
  }

  lemma UnknownHasNoNext(stepMap: map<string, Step>, u: string)
    requires u !in stepMap
    ensures Next(stepMap, u) == []
  {
  }

  /** The breadth-first loop. It stays inside every set that holds the non-join targets and is closed
      under non-join successors, and what it has visited when it ends is itself such a set. */
  method BreadthFirst(stepMap: map<string, Step>, joins: set<string>, ids: seq<string>,
                      ghost reach: iset<string>, ghost all: set<string>)
    returns (gate: Option<string>, ghost closed: set<string>)
    requires forall t :: t in ids ==> t in all
    requires forall u, v :: v in Next(stepMap, u) ==> v in all
    requires forall t :: t in ids && t !in joins ==> t in reach
    requires forall u, v :: u in reach && v in Next(stepMap, u) && v !in joins ==> v in reach
    ensures gate.Some? ==> IsGateId(stepMap, gate.value) && gate.value in reach
    ensures gate.None? ==> forall u :: u in closed ==> !IsGateId(stepMap, u)
    ensures gate.None? ==> forall t :: t in ids && t !in joins ==> t in closed
    ensures gate.None? ==> forall u, v :: u in closed && v in Next(stepMap, u) && v !in joins ==> v in closed
  {
    hide Next;
    var visited: set<string> := {};
    var queue := ids;
    while queue != []
      invariant visited <= all && visited !! joins
      invariant forall q :: q in queue ==> q in all && (q in joins || q in reach)
      invariant forall u :: u in visited ==> !IsGateId(stepMap, u) && u in reach
      invariant forall t :: t in ids ==> t in visited || t in joins || t in queue
      invariant forall u, v :: u in visited && v in Next(stepMap, u) ==> v in visited || v in joins || v in queue
      decreases all - visited, |queue|
    {
      var current := queue[0];
      ghost var queue0 := queue;
      queue := queue[1..];
      assert queue0 == [current] + queue;
      if current in visited || current in joins {
        continue;
      }
      ghost var visited0 := visited;
      visited := visited + {current};
      assert current in all - visited0 && current !in all - visited;
      if current !in stepMap {
        UnknownHasNoNext(stepMap, current);
        continue;
      }
      if stepMap[current].IsGate() {
        return Some(current), visited;
      }
      queue := Enqueue(queue, Next(stepMap, current), visited, joins);
    }
    gate, closed := None, visited;
  }

  lemma NoGateReached(stepMap: map<string, Step>, joins: set<string>, ids: seq<string>, closed: set<string>)
    requires forall u :: u in closed ==> !IsGateId(stepMap, u)
    requires forall t :: t in ids && t !in joins ==> t in closed
    requires forall u, v :: u in closed && v in Next(stepMap, u) && v !in joins ==> v in closed
    ensures forall g :: IsGateId(stepMap, g) ==> !Reached(stepMap, joins, ids, g)
  {
    forall g | IsGateId(stepMap, g)
      ensures !Reached(stepMap, joins, ids, g)
    {
      if Reached(stepMap, joins, ids, g) {
        var p :| BranchPath(stepMap, joins, ids, p) && p[|p| - 1] == g;
        ClosedHoldsPath(stepMap, joins, ids, closed, p);
        assert false;
      }
    }
  }

  /** The search for one branch list, skipped when the list is no fan-out. */
  method CheckList(stepMap: map<string, Step>, joins: set<string>, ids: seq<string>) returns (gate: Option<string>)
    ensures gate.Some? <==> BranchHasGate(stepMap, joins, ids)
    ensures gate.Some? ==> IsGateId(stepMap, gate.value) && |ids| >= 2 && Reached(stepMap, joins, ids, gate.value)
  {
    if |ids| < 2 {
      return None;
    }
    gate := SearchBranches(stepMap, joins, ids);
  }

  /** Some((gate, origin)): rejected because the branches starting at a fan-out of origin contain gate. */
  method DetectGatesInParallelBranches(steps: seq<Step>, stepIds: set<string>)
    returns (raised: Option<(string, string)>)
    ensures raised.Some? <==> GateInFanOut(steps, stepIds)
    ensures raised.Some? ==> LeadsToGate(steps, stepIds, raised.value.0, raised.value.1)
  {
    hide BranchHasGate, Lookup, InDegree, IsGateId, Reached;
    var stepMap := BuildLookup(steps);
    var inDegree := CountInDegrees(steps, stepIds);
    var joins := set id | id in inDegree && inDegree[id] >= 2;
    assert joins == JoinPoints(steps, stepIds);
    for i := 0 to |steps|
      invariant forall k :: 0 <= k < i ==>
        !BranchHasGate(stepMap, joins, steps[k].SuccessIds()) && !BranchHasGate(stepMap, joins, steps[k].ErrorIds())
    {
      var gate := CheckList(stepMap, joins, steps[i].SuccessIds());
      if gate.None? {
        gate := CheckList(stepMap, joins, steps[i].ErrorIds());
      }
      if gate.Some? {
        return Some((gate.value, steps[i].stepId));
      }
    }
    raised := None;
  }
}
