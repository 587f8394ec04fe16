/** The life cycle of catalogue actions, and the workflows that reference them. */
module Catalog {
  import opened Workflow
  import Validator

  datatype ActionStatus = Draft | Published | Disabled

  datatype ItemType = PlainAction | WorkflowItem

  datatype Transition = Publish | Disable | Enable

  /** deleted: the soft-delete date is set. */
  datatype Row = Row(itemType: ItemType, status: ActionStatus, steps: seq<Step>, deleted: bool)

  type Actions = map<int, Row>

  datatype Outcome = Done | Absent | InvalidInitialStatus | InvalidTransition | InvalidSteps | NotEditable
    | ReferencedActionNotFound | ReferencedActionNotPublished | AlreadyDisabled | NotDisabled
    | ExecutionExists | ConstraintViolated

  function NextStatus(s: ActionStatus, t: Transition): Option<ActionStatus> {
    match (s, t)
    case (Draft, Publish) => Some(Published)
    case (Published, Disable) => Some(Disabled)
    case (Disabled, Enable) => Some(Published)
    case _ => None
  }

  /** The table's check: only disabled rows may carry a soft-delete date. */
  predicate Consistent(row: Row) {
    row.status == Disabled || !row.deleted
  }

  function Off(row: Row): Row {
    row.(status := Disabled, deleted := true)
  }

  function On(row: Row): Row {
    row.(status := Published, deleted := false)
  }

  /** The action a step refers to when the workflow is checked or run. */
  predicate RefersTo(s: Step, id: int) {
    s.referencedActionId.Some? && !s.referencedActionId.value.Unusable? && s.referencedActionId.value.n == id
  }

  predicate References(row: Row, id: int) {
    exists i :: 0 <= i < |row.steps| && RefersTo(row.steps[i], id)
  }

  predicate NamesIt(s: Step, id: int) {
    s.referencedActionId == Some(Number(id))
  }

  /** What the cascade looks for: a step whose value equals the id. */
  predicate Names(row: Row, id: int) {
    exists i :: 0 <= i < |row.steps| && NamesIt(row.steps[i], id)
  }

  predicate IsPublished(actions: Actions, id: int) {
    id in actions && actions[id].status == Published
  }

  ghost predicate AllPublished(actions: Actions, row: Row) {
    forall id :: References(row, id) ==> IsPublished(actions, id)
  }

  // ---------- what the service answers ----------

  /** Step i refers to action n: by number, or by what converts to it. */
  predicate RefersBy(row: Row, i: int, n: int) {
    && 0 <= i < |row.steps|
    && (row.steps[i].referencedActionId == Some(Number(n)) || row.steps[i].referencedActionId == Some(Convertible(n)))
  }

  ghost predicate SomeMissing(actions: Actions, row: Row) {
    exists i, n :: RefersBy(row, i, n) && n !in actions
  }

  ghost predicate SomeUnpublished(actions: Actions, row: Row) {
    exists i, n :: RefersBy(row, i, n) && n in actions && actions[n].status != Published
  }

  /** Missing references are reported before unpublished ones. */
  ghost function PublishOutcome(actions: Actions, row: Row): Outcome {
    if SomeMissing(actions, row) then ReferencedActionNotFound
    else if SomeUnpublished(actions, row) then ReferencedActionNotPublished else Done
  }

  /** Drafts are published, published rows disabled, disabled rows enabled again. */
  predicate Moves(from: ActionStatus, t: Transition, to: ActionStatus) {
    || (from == Draft && t == Publish && to == Published)
    || (from == Published && t == Disable && to == Disabled)
    || (from == Disabled && t == Enable && to == Published)
  }

  /** A row may be enabled unless it is soft-deleted, and a workflow only with published references. */
  ghost function TransitOutcome(actions: Actions, id: int, t: Transition): Outcome {
    if id !in actions then Absent
    else if forall to :: !Moves(actions[id].status, t, to) then InvalidTransition
    else if t == Disable then Done
    else if actions[id].itemType == WorkflowItem && PublishOutcome(actions, actions[id]) != Done then
      PublishOutcome(actions, actions[id])
    else if actions[id].deleted then ConstraintViolated else Done
  }

  /** Row k is disabled with the action: it is a workflow in use, and some step has the action's number. */
  ghost predicate GoesWith(actions: Actions, k: int, id: int) {
    && k in actions && actions[k].itemType == WorkflowItem
    && (actions[k].status == Draft || actions[k].status == Published)
    && exists i :: 0 <= i < |actions[k].steps| && actions[k].steps[i].referencedActionId == Some(Number(id))
  }

  predicate Affected(row: Row, id: int) {
    row.itemType == WorkflowItem && row.status != Disabled && Names(row, id)
  }

  function Deactivated(actions: Actions, id: int): Actions {
    map k | k in actions :: if k == id || Affected(actions[k], id) then Off(actions[k]) else actions[k]
  }

  // ---------- the operations ----------

  datatype Op =
    | Create(id: int, row: Row)
    | Transit(id: int, transition: Transition)
    | Deactivate(id: int)
    | Reactivate(id: int)
    | EditSteps(id: int, steps: seq<Step>, registry: set<string>)
    | Delete(id: int)
    | EditItemType(id: int, itemType: ItemType)
    | Import(id: int, itemType: ItemType, status: ActionStatus, steps: seq<Step>, registry: set<string>)

  /** Steps as they are stored: those of a workflow with the validator's defaults. */
  function StoredSteps(itemType: ItemType, steps: seq<Step>): seq<Step> {
    if itemType == WorkflowItem then Validator.AllWithDefaults(steps) else steps
  }

  /** The validator accepts the steps for this action, if it is a workflow. */
  ghost predicate Editable(id: int, row: Row, steps: seq<Step>, registry: set<string>) {
    row.itemType == WorkflowItem ==> Validator.Accepted(Validator.AllWithDefaults(steps), Some(id), registry)
  }

  /** A configuration import sets type, status and steps, of a new row or an existing one. */
  function ImportedRow(actions: Actions, id: int, itemType: ItemType, status: ActionStatus, steps: seq<Step>): Row {
    var stored := StoredSteps(itemType, steps);
    if id in actions then actions[id].(itemType := itemType, status := status, steps := stored)
    else Row(itemType, status, stored, false)
  }

  /** The operations that happen as their service methods say; those that are refused leave the rows. */
  ghost predicate Happens(actions: Actions, op: Op) {
    match op
    case Create(id, row) =>
      id !in actions && row.status != Disabled && !row.deleted
      && (row.status == Published && row.itemType == WorkflowItem ==> AllPublished(actions[id := row], row))
    case Transit(id, t) =>
      id in actions && NextStatus(actions[id].status, t).Some?
      && (actions[id].itemType == WorkflowItem && t != Disable ==> AllPublished(actions, actions[id]))
      && (t != Disable ==> !actions[id].deleted)
    case Deactivate(id) => id in actions && actions[id].status != Disabled
    case Reactivate(id) =>
      id in actions && actions[id].status == Disabled
      && (actions[id].itemType == WorkflowItem ==> AllPublished(actions, actions[id]))
    case EditSteps(id, steps, registry) =>
      id in actions && actions[id].status != Published && Editable(id, actions[id], steps, registry)
    case Delete(id) => id in actions
    case EditItemType(id, _) => id in actions
    case Import(id, itemType, status, steps, registry) =>
      && (itemType == WorkflowItem ==> Validator.Accepted(Validator.AllWithDefaults(steps), None, registry))
      && Consistent(ImportedRow(actions, id, itemType, status, steps))
  }

  ghost function Perform(actions: Actions, op: Op): Actions {
    if !Happens(actions, op) then actions else
    match op
    case Create(id, row) => actions[id := row]
    case Transit(id, t) => actions[id := actions[id].(status := NextStatus(actions[id].status, t).value)]
    case Deactivate(id) => Deactivated(actions, id)
    case Reactivate(id) => actions[id := On(actions[id])]
    case EditSteps(id, steps, _) => actions[id := actions[id].(steps := StoredSteps(actions[id].itemType, steps))]
    case Delete(id) => actions - {id}
    case EditItemType(id, itemType) => actions[id := actions[id].(itemType := itemType)]
    case Import(id, itemType, status, steps, _) => actions[id := ImportedRow(actions, id, itemType, status, steps)]
  }

  lemma PublishIff(actions: Actions, row: Row)
    ensures SomeMissing(actions, row) <==> exists id :: References(row, id) && id !in actions
    ensures SomeUnpublished(actions, row) <==>
      exists id :: References(row, id) && id in actions && actions[id].status != Published
    ensures AllPublished(actions, row) <==> !SomeMissing(actions, row) && !SomeUnpublished(actions, row)
  {
    forall i, n
      ensures RefersBy(row, i, n) <==> 0 <= i < |row.steps| && RefersTo(row.steps[i], n)
    {
    }
    hide RefersBy, RefersTo;
    assert forall n :: References(row, n) <==> exists i :: RefersBy(row, i, n);
    hide References;
  }

  lemma PublishedIff(actions: Actions, row: Row)
    ensures AllPublished(actions, row) <==> PublishOutcome(actions, row) == Done
  {
    hide SomeMissing, SomeUnpublished, AllPublished;
    PublishIff(actions, row);
  }

  lemma MovesIff(s: ActionStatus, t: Transition)
    ensures NextStatus(s, t).None? <==> forall to :: !Moves(s, t, to)
    ensures forall to :: Moves(s, t, to) <==> NextStatus(s, t) == Some(to)
  {
    assert NextStatus(s, t).Some? ==> Moves(s, t, NextStatus(s, t).value);
  }

  lemma GoesWithIff(actions: Actions, k: int, id: int)
    requires k in actions
    ensures GoesWith(actions, k, id) <==> Affected(actions[k], id)
  {
    assert Names(actions[k], id) <==>
      exists i :: 0 <= i < |actions[k].steps| && actions[k].steps[i].referencedActionId == Some(Number(id));
  }

  lemma GoesWithAction(actions: Actions, k: int, id: int)
    ensures GoesWith(actions, k, id) <==> k in actions && Affected(actions[k], id)
  {
    hide Affected;
    if k in actions {
      GoesWithIff(actions, k, id);
    }
  }

  // ---------- the service ----------

  class CatalogService {
    var actions: Actions

    constructor ()
      ensures actions == map[]
    {
      actions := map[];
    }

    method ValidateWorkflowCanBePublished(row: Row) returns (outcome: Outcome)
      ensures outcome == PublishOutcome(actions, row)
      ensures outcome == Done <==> AllPublished(actions, row)
    {
      PublishIff(actions, row);
      var missing, notPublished := [], [];
      for i := 0 to |row.steps|
        invariant forall id :: id in missing <==> id !in actions && exists j :: 0 <= j < i && RefersTo(row.steps[j], id)
        invariant forall id :: id in notPublished <==>
          id in actions && actions[id].status != Published && exists j :: 0 <= j < i && RefersTo(row.steps[j], id)
      {
        var ref := row.steps[i].referencedActionId;
        if ref.Some? && !ref.value.Unusable? {
          var n := ref.value.n;
          if n !in actions {
            missing := missing + [n];
          } else if actions[n].status != Published {
            notPublished := notPublished + [n];
          }
        }
      }
      if missing != [] {
        assert missing[0] in missing && References(row, missing[0]);
        return ReferencedActionNotFound;
      }
      if notPublished != [] {
        assert notPublished[0] in notPublished && References(row, notPublished[0]);
        return ReferencedActionNotPublished;
      }
      outcome := Done;
    }

    /** The row is inserted before its references are looked at; a refusal rolls it back. */
    method CreateAction(id: int, row: Row) returns (outcome: Outcome)
      requires id !in actions && !row.deleted
      modifies this
      ensures outcome == if row.status == Disabled then InvalidInitialStatus
                         else if row.status == Published && row.itemType == WorkflowItem then
                           PublishOutcome(old(actions)[id := row], row)
                         else Done
      ensures actions == if outcome == Done then old(actions)[id := row] else old(actions)
      ensures actions == Perform(old(actions), Create(id, row))
    {
      if row.status == Disabled {
        return InvalidInitialStatus;
      }
      var before := actions;
      actions := actions[id := row];
      if row.status == Published && row.itemType == WorkflowItem {
        outcome := ValidateWorkflowCanBePublished(row);
        if outcome != Done {
          actions := before;
          return;
        }
      }
      outcome := Done;
    }

    method UpdateStatus(id: int, t: Transition) returns (outcome: Outcome)
      modifies this
      ensures outcome == TransitOutcome(old(actions), id, t)
      ensures outcome == Done ==>
        id in actions && Moves(old(actions)[id].status, t, actions[id].status)
        && actions == old(actions)[id := old(actions)[id].(status := actions[id].status)]
      ensures outcome != Done ==> actions == old(actions)
      ensures actions == Perform(old(actions), Transit(id, t))
    {
      hide AllPublished, PublishOutcome, Moves;
      if id in actions {
        MovesIff(actions[id].status, t);
        PublishedIff(actions, actions[id]);
      }
      if id !in actions {
        return Absent;
      }
      var next := NextStatus(actions[id].status, t);
      if next.None? {
        return InvalidTransition;
      }
      outcome := Done;
      if actions[id].itemType == WorkflowItem && t != Disable {
        outcome := ValidateWorkflowCanBePublished(actions[id]);
      }
      if outcome == Done {
        var row := actions[id].(status := next.value);
        if !Consistent(row) {
          return ConstraintViolated;
        }
        actions := actions[id := row];
      }
    }

    /** Draft and published workflows with a step that names the action. */
    method FindWorkflowsReferencing(id: int) returns (found: seq<int>)
      ensures forall k :: k in found <==> GoesWith(actions, k, id)
      ensures forall k :: k in found <==> k in actions && Affected(actions[k], id)
    {
      hide Affected, GoesWith;
      forall k
        ensures GoesWith(actions, k, id) <==> k in actions && Affected(actions[k], id)
      {
        GoesWithAction(actions, k, id);
      }
      found := [];
      var rest := actions.Keys;
      while rest != {}
        invariant rest <= actions.Keys
        invariant forall k :: k in found <==> k in actions && k !in rest && Affected(actions[k], id)
        decreases |rest|
      {
        if forall j :: j !in rest { assert false; }
        var k :| k in rest;
        if Affected(actions[k], id) {
          found := found + [k];
        }
        rest := rest - {k};
      }
    }

    method DeactivateAction(id: int) returns (outcome: Outcome)
      modifies this
      ensures outcome == if id !in old(actions) then Absent
                         else if old(actions)[id].status == Disabled then AlreadyDisabled else Done
      ensures outcome != Done ==> actions == old(actions)
      ensures outcome == Done ==> actions.Keys == old(actions).Keys && forall k :: k in actions ==>
        actions[k] == if k == id || GoesWith(old(actions), k, id)
                      then old(actions)[k].(status := Disabled, deleted := true) else old(actions)[k]
      ensures actions == Perform(old(actions), Deactivate(id))
    {
      hide Affected, GoesWith;
      if id !in actions {
        return Absent;
      }
      forall k | k in actions
        ensures GoesWith(actions, k, id) <==> Affected(actions[k], id)
      {
        GoesWithIff(actions, k, id);
      }
      if actions[id].status == Disabled {
        return AlreadyDisabled;
      }
      var affected := FindWorkflowsReferencing(id);
      assert forall k :: k in affected <==> k in old(actions) && Affected(old(actions)[k], id);
      actions := actions[id := Off(actions[id])];
      for i := 0 to |affected|
        invariant actions.Keys == old(actions).Keys
        invariant forall k :: k in actions ==>
          actions[k] == if k == id || k in affected[..i] then Off(old(actions)[k]) else old(actions)[k]
      {
        assert affected[i] in affected && affected[i] in old(actions);
        actions := actions[affected[i] := Off(actions[affected[i]])];
        assert affected[..i + 1] == affected[..i] + [affected[i]];
      }
      assert affected[..|affected|] == affected;
      outcome := Done;
    }

    method ReactivateAction(id: int) returns (outcome: Outcome)
      modifies this
      ensures outcome == if id !in old(actions) then Absent
                         else if old(actions)[id].status != Disabled then NotDisabled
                         else if old(actions)[id].itemType == WorkflowItem then
                           PublishOutcome(old(actions), old(actions)[id])
                         else Done
      ensures outcome == Done ==>
        actions == old(actions)[id := old(actions)[id].(status := Published, deleted := false)]
      ensures outcome != Done ==> actions == old(actions)
      ensures actions == Perform(old(actions), Reactivate(id))
    {
      if id !in actions {
        return Absent;
      }
      if actions[id].status != Disabled {
        return NotDisabled;
      }
      outcome := Done;
      if actions[id].itemType == WorkflowItem {
        outcome := ValidateWorkflowCanBePublished(actions[id]);
      }
      if outcome == Done {
        actions := actions[id := On(actions[id])];
      }
    }

    /** The steps of a workflow are validated in place; None leaves the steps as they are. */
    method UpdateExecutionSteps(id: int, steps: Option<seq<Step>>, registry: set<string>) returns (outcome: Outcome)
      modifies this
      ensures outcome == if id !in old(actions) then Absent
                         else if old(actions)[id].status == Published then NotEditable
                         else if steps.Some? && old(actions)[id].itemType == WorkflowItem
                           && !Validator.Accepted(Validator.AllWithDefaults(steps.value), Some(id), registry)
                         then InvalidSteps else Done
      ensures outcome != Done ==> actions == old(actions)
      ensures outcome == Done && steps.Some? ==>
        actions == old(actions)[id := old(actions)[id].(steps :=
          if old(actions)[id].itemType == WorkflowItem then Validator.AllWithDefaults(steps.value) else steps.value)]
      ensures actions == if steps.Some? then Perform(old(actions), EditSteps(id, steps.value, registry))
        else old(actions)
    {
      hide Validator.Accepted, Validator.AllWithDefaults;
      if id !in actions {
        return Absent;
      }
      if actions[id].status == Published {
        return NotEditable;
      }
      if steps.Some? {
        var stored := steps.value;
        if actions[id].itemType == WorkflowItem {
          var list := new Step[|stored|](i requires 0 <= i < |stored| => stored[i]);
          assert list[..] == stored;
          var error := Validator.ValidateWorkflowSteps(list, Some(id), registry);
          if error.Some? {
            return InvalidSteps;
          }
          stored := list[..];
        }
        actions := actions[id := actions[id].(steps := stored)];
      }
      outcome := Done;
    }

    method DeleteAction(id: int, executions: nat) returns (outcome: Outcome)
      modifies this
      ensures outcome == if id !in old(actions) then Absent else if executions > 0 then ExecutionExists else Done
      ensures actions == if outcome == Done then old(actions) - {id} else old(actions)
      ensures outcome == Done ==> actions == Perform(old(actions), Delete(id))
    {
      if id !in actions {
        return Absent;
      }
      if executions > 0 {
        return ExecutionExists;
      }
      actions := actions - {id};
      outcome := Done;
    }
  }

  // ---------- runs ----------

  ghost function After(ops: seq<Op>): Actions {
    if ops == [] then map[] else Perform(After(ops[..|ops| - 1]), ops[|ops| - 1])
  }

  /** Every published workflow references only existing published actions. */
  ghost predicate Sound(actions: Actions) {
    forall w :: w in actions && PublishedWorkflow(actions[w]) ==> AllPublished(actions, actions[w])
  }

  predicate PublishedWorkflow(row: Row) {
    row.itemType == WorkflowItem && row.status == Published
  }

  predicate ExactRef(s: Step, plain: iset<int>) {
    match s.referencedActionId
    case Some(Number(n)) => n in plain
    case Some(Convertible(_)) => false
    case _ => true
  }

  predicate ExactRefs(steps: seq<Step>, plain: iset<int>) {
    forall i :: 0 <= i < |steps| ==> ExactRef(steps[i], plain)
  }

  lemma DefaultsKeepRefs(itemType: ItemType, steps: seq<Step>, plain: iset<int>)
    requires ExactRefs(steps, plain)
    ensures ExactRefs(StoredSteps(itemType, steps), plain)
  {
    forall i | 0 <= i < |steps|
      ensures ExactRef(Validator.WithDefaults(steps[i]), plain)
    {
      assert ExactRef(steps[i], plain);
    }
  }

  /** The operations that cascade, on workflows that reference plain actions only and by number: no id
      in plain is ever a workflow. */
  predicate Disciplined(op: Op, plain: iset<int>) {
    match op
    case Create(id, row) => (row.itemType == WorkflowItem ==> id !in plain) && ExactRefs(row.steps, plain)
    case EditSteps(_, steps, _) => ExactRefs(steps, plain)
    case Transit(_, t) => t != Disable
    case Deactivate(_) => true
    case Reactivate(_) => true
    case Delete(_) => false
    case EditItemType(_, _) => false
    case Import(_, _, _, _, _) => false
  }

  ghost predicate Inv(actions: Actions, plain: iset<int>) {
    Sound(actions) && forall k :: k in actions ==> TypedRow(k, actions[k], plain) && Consistent(actions[k])
  }

  predicate TypedRow(id: int, row: Row, plain: iset<int>) {
    (row.itemType == WorkflowItem ==> id !in plain) && ExactRefs(row.steps, plain)
  }

  /** A row that is not a published workflow any worse than before, and a published row that stays one. */
  lemma OneRowKeepsSound(actions: Actions, id: int, row: Row)
    requires Sound(actions)
    requires IsPublished(actions, id) ==> row.status == Published
    requires PublishedWorkflow(row) ==> AllPublished(actions[id := row], row)
    ensures Sound(actions[id := row])
  {
    hide References;
    var after := actions[id := row];
    forall w | w in after && PublishedWorkflow(after[w])
      ensures AllPublished(after, after[w])
    {
      if w != id {
        assert AllPublished(actions, actions[w]);
      }
    }
  }

  /** Publishing an action only helps those that reference it. */
  lemma AllPublishedGrows(actions: Actions, id: int, row: Row, checked: Row)
    requires AllPublished(actions, checked) && checked.steps == row.steps && row.status == Published
    ensures AllPublished(actions[id := row], row)
  {
    forall k | References(row, k)
      ensures IsPublished(actions[id := row], k)
    {
      assert References(checked, k);
    }
  }

  ghost predicate Untouched(actions: Actions, id: int, w: int)
    requires w in actions
  {
    w != id && PublishedWorkflow(actions[w]) && !Names(actions[w], id)
  }

  /** The published workflows the cascade leaves alone reference neither the action nor a workflow that
      is disabled with it. */
  ghost predicate CascadeCovers(actions: Actions, id: int) {
    forall w, r :: w in actions && Untouched(actions, id, w) && References(actions[w], r) ==>
      r != id && !(r in actions && Affected(actions[r], id))
  }

  /** Deactivation keeps published workflows sound exactly when the cascade covers everything that
      depends on the action: it stops at direct references by number. */
  lemma DeactivateKeepsSoundIff(actions: Actions, id: int)
    requires Sound(actions) && Happens(actions, Deactivate(id))
    ensures Sound(Perform(actions, Deactivate(id))) <==> CascadeCovers(actions, id)
  {
    hide References, Names;
    var after := Deactivated(actions, id);
    forall w | w in actions
      ensures PublishedWorkflow(after[w]) <==> Untouched(actions, id, w)
    {
    }
    forall r
      ensures IsPublished(after, r) <==> IsPublished(actions, r) && r != id && !Affected(actions[r], id)
    {
    }
    if CascadeCovers(actions, id) {
      forall w | w in after && PublishedWorkflow(after[w])
        ensures AllPublished(after, after[w])
      {
        assert AllPublished(actions, actions[w]) && after[w] == actions[w];
      }
    } else {
      var w, r :| w in actions && Untouched(actions, id, w) && References(actions[w], r)
        && !(r != id && !(r in actions && Affected(actions[r], id)));
      assert after[w] == actions[w] && !IsPublished(after, r);
      assert !AllPublished(after, after[w]);
    }
  }

  lemma ExactRefsNamed(row: Row, plain: iset<int>, id: int)
    requires ExactRefs(row.steps, plain) && References(row, id)
    ensures Names(row, id) && id in plain
  {
  }

  lemma DisciplineCovers(actions: Actions, plain: iset<int>, id: int)
    requires Inv(actions, plain)
    ensures CascadeCovers(actions, id)
  {
    hide References, Names, ExactRefs;
    forall w, r | w in actions && Untouched(actions, id, w) && References(actions[w], r)
      ensures r != id && !(r in actions && Affected(actions[r], id))
    {
      assert TypedRow(w, actions[w], plain);
      ExactRefsNamed(actions[w], plain, r);
      if r in actions {
        assert TypedRow(r, actions[r], plain);
      }
    }
  }

  lemma StepKeepsSound(actions: Actions, op: Op, plain: iset<int>)
    requires Inv(actions, plain) && Disciplined(op, plain) && Happens(actions, op)
    ensures Sound(Perform(actions, op))
  {
    hide References, ExactRefs, Validator.Accepted, Validator.AllWithDefaults;
    match op
    case Create(id, row) =>
      OneRowKeepsSound(actions, id, row);
    case Transit(id, t) =>
      var row := actions[id].(status := NextStatus(actions[id].status, t).value);
      if row.itemType == WorkflowItem { AllPublishedGrows(actions, id, row, actions[id]); }
      OneRowKeepsSound(actions, id, row);
    case Deactivate(id) =>
      DisciplineCovers(actions, plain, id);
      DeactivateKeepsSoundIff(actions, id);
    case Reactivate(id) =>
      var row := On(actions[id]);
      if row.itemType == WorkflowItem { AllPublishedGrows(actions, id, row, actions[id]); }
      OneRowKeepsSound(actions, id, row);
    case EditSteps(id, steps, _) =>
      OneRowKeepsSound(actions, id, actions[id].(steps := StoredSteps(actions[id].itemType, steps)));
  }

  lemma StepKeepsTyped(actions: Actions, op: Op, plain: iset<int>)
    requires Inv(actions, plain) && Disciplined(op, plain)
    ensures var after := Perform(actions, op); forall k :: k in after ==>
      TypedRow(k, after[k], plain) && Consistent(after[k])
  {
    hide References, ExactRefs, AllPublished, Sound, Affected, Validator.Accepted, Validator.AllWithDefaults;
    if op.EditSteps? && op.id in actions {
      DefaultsKeepRefs(actions[op.id].itemType, op.steps, plain);
    }
    assert forall k :: k in actions ==> TypedRow(k, actions[k], plain);
  }

  /** Over every run of creations, publications, deactivations, reactivations and step edits, with
      workflows that reference plain actions by number, every published workflow references only
      existing published actions. */
  lemma {:induction false} EveryRunSound(ops: seq<Op>, plain: iset<int>)
    requires forall i :: 0 <= i < |ops| ==> Disciplined(ops[i], plain)
    ensures Inv(After(ops), plain)
  {
    if ops != [] {
      hide Perform, Disciplined;
      var n := |ops| - 1;
      EveryRunSound(ops[..n], plain);
      var actions := After(ops[..n]);
      StepKeepsTyped(actions, ops[n], plain);
      if Happens(actions, ops[n]) {
        StepKeepsSound(actions, ops[n], plain);
      } else {
        RefusedChangesNothing(actions, ops[n]);
      }
    }
  }

  lemma RefusedChangesNothing(actions: Actions, op: Op)
    requires !Happens(actions, op)
    ensures Perform(actions, op) == actions
  {
  }

  // ---------- what a deactivation leaves behind ----------

  predicate ActiveWorkflow(row: Row) {
    row.itemType == WorkflowItem && row.status != Disabled
  }

  ghost predicate NoneReferences(actions: Actions, id: int) {
    forall w :: w in actions && ActiveWorkflow(actions[w]) ==> !References(actions[w], id)
  }

  /** After a deactivation no draft or published workflow references the action, exactly when none of
      the others referenced it without naming it (by a text or a fraction). */
  lemma DeactivationClearsIff(actions: Actions, id: int)
    requires Happens(actions, Deactivate(id))
    ensures NoneReferences(Perform(actions, Deactivate(id)), id) <==>
      forall w :: w in actions && w != id && ActiveWorkflow(actions[w]) && References(actions[w], id) ==>
        Names(actions[w], id)
  {
    hide References, Names;
    var after := Deactivated(actions, id);
    forall w | w in actions
      ensures ActiveWorkflow(after[w]) <==> w != id && ActiveWorkflow(actions[w]) && !Names(actions[w], id)
      ensures References(after[w], id) <==> References(actions[w], id)
    {
      SameRefs(actions[w], after[w], id);
    }
  }

  lemma SameRefs(a: Row, b: Row, id: int)
    requires a.steps == b.steps
    ensures References(a, id) <==> References(b, id)
  {
  }

  // ---------- the operations that do not cascade ----------

  /** A published workflow other than w itself references the action. */
  ghost predicate Depended(actions: Actions, id: int) {
    exists w :: w in actions && w != id && PublishedWorkflow(actions[w]) && References(actions[w], id)
  }

  /** The disable transition and deletion look at no workflow: they keep published workflows sound
      exactly when no other published workflow references the action. */
  lemma WithoutCascadeIff(actions: Actions, op: Op)
    requires Sound(actions) && Happens(actions, op)
    requires op.Delete? || (op.Transit? && op.transition == Disable)
    requires actions[op.id].status == Published
    ensures Sound(Perform(actions, op)) <==> !Depended(actions, op.id)
  {
    hide References;
    var after := Perform(actions, op);
    assert !IsPublished(after, op.id);
    assert forall w :: w in actions && w != op.id ==> w in after && after[w] == actions[w];
    if Depended(actions, op.id) {
      var w :| w in actions && w != op.id && PublishedWorkflow(actions[w]) && References(actions[w], op.id);
      assert PublishedWorkflow(after[w]) && !AllPublished(after, after[w]);
    } else {
      forall w | w in after && PublishedWorkflow(after[w])
        ensures AllPublished(after, after[w])
      {
        assert w != op.id && AllPublished(actions, actions[w]);
      }
    }
  }

  /** Making a published item a workflow keeps soundness exactly when its references, never looked at,
      are all published. */
  lemma EditItemTypeKeepsSoundIff(actions: Actions, id: int)
    requires Sound(actions) && IsPublished(actions, id)
    ensures Sound(Perform(actions, EditItemType(id, WorkflowItem))) <==> AllPublished(actions, actions[id])
  {
    var row := actions[id].(itemType := WorkflowItem);
    if AllPublished(actions, actions[id]) {
      AllPublishedGrows(actions, id, row, actions[id]);
      OneRowKeepsSound(actions, id, row);
    } else {
      var r :| References(actions[id], r) && !IsPublished(actions, r);
      var after := actions[id := row];
      SameRefs(actions[id], row, r);
      assert after[id] == row && !IsPublished(after, r);
      assert !AllPublished(after, after[id]);
    }
  }

  /** A row written whatever the references keeps published workflows sound exactly when its references are all
      published, if it is a published workflow, and nothing published depends on it, if it was published and is not. */
  lemma RowWriteKeepsSoundIff(actions: Actions, id: int, row: Row)
    requires Sound(actions)
    ensures Sound(actions[id := row]) <==>
      && (PublishedWorkflow(row) ==> AllPublished(actions[id := row], row))
      && (IsPublished(actions, id) && row.status != Published ==> !Depended(actions, id))
  {
    hide References;
    var after := actions[id := row];
    assert forall w :: w in actions && w != id ==> w in after && after[w] == actions[w];
    if IsPublished(actions, id) && row.status != Published && Depended(actions, id) {
      var w :| w in actions && w != id && PublishedWorkflow(actions[w]) && References(actions[w], id);
      assert PublishedWorkflow(after[w]) && !IsPublished(after, id) && !AllPublished(after, after[w]);
    } else if PublishedWorkflow(row) && !AllPublished(after, row) {
      assert after[id] == row;
    } else {
      forall w | w in after && PublishedWorkflow(after[w])
        ensures AllPublished(after, after[w])
      {
        if w != id {
          assert AllPublished(actions, actions[w]);
        }
      }
    }
  }

  /** An import looks at no other action: it keeps published workflows sound exactly when the references of
      what it publishes are all published and nothing published depends on what it takes back. */
  lemma ImportKeepsSoundIff(actions: Actions, op: Op)
    requires Sound(actions) && op.Import? && Happens(actions, op)
    ensures var row := ImportedRow(actions, op.id, op.itemType, op.status, op.steps);
            Sound(Perform(actions, op)) <==>
              && (PublishedWorkflow(row) ==> AllPublished(actions[op.id := row], row))
              && (IsPublished(actions, op.id) && row.status != Published ==> !Depended(actions, op.id))
  {
    hide AllPublished, Depended, Sound, Validator.Accepted, StoredSteps;
    RowWriteKeepsSoundIff(actions, op.id, ImportedRow(actions, op.id, op.itemType, op.status, op.steps));
  }
}
