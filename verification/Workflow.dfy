/** Workflow step documents and the views of them that the validator, the store and the runtime share. */
module Workflow {
  import opened Digraph

  datatype Option<+T> = None | Some(value: T)

  /** A key of a JSON object: missing, present with null, or present with a value. */
  datatype Field<+T> = Missing | Null | Is(value: T) {
    function ToOption(): Option<T> {
      if Is? then Some(value) else None
    }
  }

  /** A referenced_action_id: a number; a text or fraction that converts to a number without being equal
      to it; or something that does not convert. */
  datatype Ref = Number(n: int) | Convertible(n: int) | Unusable

  /** One entry of an action's execution_steps. An empty stepId stands for a missing one. */
  datatype Step = Step(
    stepId: string,
    order: int,
    stepType: Option<string>,
    referencedActionId: Option<Ref>,
    onSuccess: Field<seq<string>>,
    onError: Field<seq<string>>,
    joinPolicy: Option<string>,
    gateType: Option<string>,
    retryEnabled: bool,
    retryMaxAttempts: Field<int>,
    retryIntervalSeconds: Field<int>,
    retryBackoffMultiplier: Field<real>,
    integrationType: Option<string>,
    operation: Option<string>,
    inputMapping: Option<string>,
    outputMapping: Option<string>,
    condition: Option<string>)
  {
    function SuccessIds(): seq<string> {
      if onSuccess.Is? then onSuccess.value else []
    }

    function ErrorIds(): seq<string> {
      if onError.Is? then onError.value else []
    }

    /** The step type with its default. */
    function Type(): string {
      if stepType == None || stepType == Some("") then "platform" else stepType.value
    }

    predicate IsGate() {
      stepType == Some("gate")
    }

    /** The successor set the cycle check uses: non-empty targets of both lists. */
    function Neighbors(): set<string> {
      set t | t in SuccessIds() + ErrorIds() && t != ""
    }
  }

  /** A step with the given id and branch lists and every other key absent. */
  function PlainStep(id: string, order: int, onSuccess: Field<seq<string>>, onError: Field<seq<string>>): Step {
    Step(id, order, None, Some(Number(1)), onSuccess, onError, None, None, false, Missing, Missing, Missing,
         None, None, None, None, None)
  }

  /** Step ids that are present. */
  function StepIds(steps: seq<Step>): set<string> {
    if steps == [] then {} else
      var last := steps[|steps| - 1];
      StepIds(steps[..|steps| - 1]) + if last.stepId == "" then {} else {last.stepId}
  }

  predicate UniqueIds(steps: seq<Step>) {
    forall i, j :: 0 <= i < j < |steps| && steps[i].stepId == steps[j].stepId ==> steps[i].stepId == ""
  }

  lemma {:induction false} StepIdsMember(steps: seq<Step>, id: string)
    ensures id in StepIds(steps) <==> id != "" && exists i :: 0 <= i < |steps| && steps[i].stepId == id
  {
    if steps != [] {
      var n := |steps| - 1;
      StepIdsMember(steps[..n], id);
      assert forall i :: 0 <= i < n ==> steps[..n][i] == steps[i];
    }
  }

  /** Appending a step keeps the ids unique unless its id is already present. */
  lemma UniqueSnoc(steps: seq<Step>, s: Step)
    ensures StepIds(steps + [s]) == StepIds(steps) + if s.stepId == "" then {} else {s.stepId}
    ensures UniqueIds(steps + [s]) <==> UniqueIds(steps) && s.stepId !in StepIds(steps)
  {
    assert (steps + [s])[..|steps|] == steps;
    StepIdsMember(steps, s.stepId);
    var longer := steps + [s];
    assert forall i :: 0 <= i < |steps| ==> longer[i] == steps[i];
    assert forall i :: 0 <= i < |steps| && steps[i].stepId == s.stepId ==> longer[i].stepId == longer[|steps|].stepId;
  }

  /** Dictionary from step id to step; a later step replaces an earlier one with the same id. */
  function Lookup(steps: seq<Step>): map<string, Step> {
    if steps == [] then map[] else
      var last := steps[|steps| - 1];
      var m := Lookup(steps[..|steps| - 1]);
      if last.stepId == "" then m else m[last.stepId := last]
  }

  /** The success-and-error graph of a workflow. */
  function GraphOf(steps: seq<Step>): Graph {
    map id | id in Lookup(steps) :: Lookup(steps)[id].Neighbors()
  }

  lemma {:induction false} LookupSound(steps: seq<Step>)
    ensures Lookup(steps).Keys == StepIds(steps)
    ensures forall id :: id in Lookup(steps) ==>
      Lookup(steps)[id] in steps && Lookup(steps)[id].stepId == id && id != ""
  {
    if steps != [] {
      var init := steps[..|steps| - 1];
      LookupSound(init);
      assert steps == init + [steps[|steps| - 1]];
    }
  }

  /** Step i is the last one with this id. */
  ghost predicate LastWith(steps: seq<Step>, i: int, id: string) {
    0 <= i < |steps| && steps[i].stepId == id && forall j :: i < j < |steps| ==> steps[j].stepId != id
  }

  /** An id stands for the last step that has it. */
  lemma {:induction false} LookupLast(steps: seq<Step>, id: string)
    ensures id in Lookup(steps) <==> id != "" && exists i :: LastWith(steps, i, id)
    ensures forall i :: LastWith(steps, i, id) && id != "" ==> id in Lookup(steps) && Lookup(steps)[id] == steps[i]
  {
    if steps != [] {
      var n := |steps| - 1;
      LookupLast(steps[..n], id);
      if steps[n].stepId == id {
        assert LastWith(steps, n, id);
      } else {
        forall i
          ensures LastWith(steps, i, id) <==> LastWith(steps[..n], i, id)
        {
        }
      }
    }
  }

  lemma {:induction false} LookupUnique(steps: seq<Step>, i: nat)
    requires UniqueIds(steps) && i < |steps| && steps[i].stepId != ""
    ensures steps[i].stepId in Lookup(steps) && Lookup(steps)[steps[i].stepId] == steps[i]
  {
    var n := |steps| - 1;
    if i < n {
      LookupUnique(steps[..n], i);
      assert steps[n].stepId != steps[i].stepId;
    }
  }

  lemma LookupPair(s: Step, t: Step)
    requires s.stepId != "" && t.stepId != "" && s.stepId != t.stepId
    ensures Lookup([s, t]) == map[s.stepId := s, t.stepId := t] && StepIds([s, t]) == {s.stepId, t.stepId}
      && UniqueIds([s, t])
  {
    var pair := [s, t];
    assert pair[..1] == [s] && [s][..0] == [];
    assert Lookup([s][..0]) == map[] && StepIds([s][..0]) == {};
    assert Lookup([s]) == map[s.stepId := s];
    assert StepIds([s]) == {s.stepId};
  }

  method BuildLookup(steps: seq<Step>) returns (m: map<string, Step>)
    ensures m == Lookup(steps)
  {
    m := map[];
    for i := 0 to |steps|
      invariant m == Lookup(steps[..i])
    {
      assert steps[..i + 1][..i] == steps[..i];
      if steps[i].stepId != "" {
        m := m[steps[i].stepId := steps[i]];
      }
    }
    assert steps[..|steps|] == steps;
  }
}
