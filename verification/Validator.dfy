/** Validation of a workflow's step list, with the retry defaults it writes into the steps. */
module Validator {
  import opened Digraph
  import opened Workflow
  import opened Text
  import CycleCheck
  import GateCheck

  datatype ValidationError =
    | MissingReferencedAction(index: nat)
    | SelfReference(index: nat)
    | MissingStepId(index: nat)
    | BlankStepId(index: nat)
    | DuplicateStepIds(ids: set<string>)
    | BlankTarget(index: nat)
    | UnknownTarget(index: nat, target: string)
    | BadJoinPolicy(index: nat)
    | MissingGateType(index: nat)
    | UnknownGateType(index: nat)
    | BadRetryAttempts(index: nat)
    | BadRetryInterval(index: nat)
    | NoExitPoint
    | InfiniteLoop(path: seq<string>)
    | GateInBranch(gate: string, origin: string)

  const VALID_JOIN_POLICIES := {"all_success", "one_success", "all_done", "all_failed", "one_failed"}
  const DEFAULT_MAX_ATTEMPTS := 3
  const DEFAULT_INTERVAL_SECONDS := 60
  const DEFAULT_BACKOFF_MULTIPLIER := 2.0

  predicate UsesBranchesOrRetry(s: Step) {
    || s.onSuccess != Missing || s.onError != Missing || s.retryEnabled
    || s.retryMaxAttempts != Missing || s.retryIntervalSeconds != Missing || s.retryBackoffMultiplier != Missing
  }

  predicate AnyUses(steps: seq<Step>) {
    exists i :: 0 <= i < |steps| && UsesBranchesOrRetry(steps[i])
  }

  function WithDefaults(s: Step): Step {
    if !s.retryEnabled then s else
      s.(retryMaxAttempts := if s.retryMaxAttempts.Is? then s.retryMaxAttempts else Is(DEFAULT_MAX_ATTEMPTS),
         retryIntervalSeconds :=
           if s.retryIntervalSeconds.Is? then s.retryIntervalSeconds else Is(DEFAULT_INTERVAL_SECONDS),
         retryBackoffMultiplier :=
           if s.retryBackoffMultiplier.Is? then s.retryBackoffMultiplier else Is(DEFAULT_BACKOFF_MULTIPLIER))
  }

  function AllWithDefaults(steps: seq<Step>): seq<Step> {
    seq(|steps|, i requires 0 <= i < |steps| => WithDefaults(steps[i]))
  }

  predicate RefersToItself(s: Step, actionId: Option<int>) {
    actionId.Some? && s.referencedActionId == Some(Number(actionId.value))
  }

  predicate ShapeOk(s: Step, actionId: Option<int>) {
    s.Type() == "platform" ==> s.referencedActionId.Some? && !RefersToItself(s, actionId)
  }

  predicate IdOk(s: Step, uses: bool) {
    (uses ==> s.stepId != "") && (s.stepId != "" ==> !Blank(s.stepId))
  }

  predicate TargetsOk(targets: Field<seq<string>>, ids: set<string>) {
    targets.Is? ==> forall t :: t in targets.value ==> !Blank(t) && t in ids
  }

  /** An empty or null branch list that is present makes the step an exit point. */
  predicate IsExit(s: Step) {
    (s.onSuccess != Missing && s.SuccessIds() == []) || (s.onError != Missing && s.ErrorIds() == [])
  }

  predicate GateTypeOk(s: Step, registry: set<string>) {
    s.IsGate() ==> s.gateType.Some? && !Blank(s.gateType.value) && Strip(s.gateType.value) in registry
  }

  predicate RetryOk(s: Step) {
    s.retryEnabled ==>
      s.retryMaxAttempts.Is? && s.retryMaxAttempts.value >= 1 &&
      s.retryIntervalSeconds.Is? && s.retryIntervalSeconds.value >= 1
  }

  predicate StepOk(s: Step, ids: set<string>, registry: set<string>) {
    && TargetsOk(s.onSuccess, ids) && TargetsOk(s.onError, ids)
    && (s.joinPolicy.Some? ==> s.joinPolicy.value in VALID_JOIN_POLICIES)
    && GateTypeOk(s, registry) && RetryOk(s)
  }

  /** What an accepted step list is, said without any order of checking. */
  ghost predicate Accepted(steps: seq<Step>, actionId: Option<int>, registry: set<string>) {
    steps == [] || (LocallyOk(steps, actionId, registry) && (AnyUses(steps) ==> GloballyOk(steps)))
  }

  ghost predicate LocallyOk(steps: seq<Step>, actionId: Option<int>, registry: set<string>) {
    && (forall i :: 0 <= i < |steps| ==> ShapeOk(steps[i], actionId))
    && (forall i :: 0 <= i < |steps| ==> IdOk(steps[i], AnyUses(steps)))
    && UniqueIds(steps)
    && (forall i :: 0 <= i < |steps| ==> StepOk(steps[i], StepIds(steps), registry))
  }

  ghost predicate GloballyOk(steps: seq<Step>) {
    && (exists i :: 0 <= i < |steps| && IsExit(steps[i]))
    && Acyclic(GraphOf(steps))
    && !GateCheck.GateInFanOut(steps, StepIds(steps))
  }

  // ---------- which error is raised ----------

  ghost predicate ShapesOk(steps: seq<Step>, actionId: Option<int>) {
    forall i :: 0 <= i < |steps| ==> ShapeOk(steps[i], actionId)
  }

  ghost predicate IdsOk(steps: seq<Step>, uses: bool) {
    forall i :: 0 <= i < |steps| ==> IdOk(steps[i], uses)
  }

  ghost predicate StepsOk(steps: seq<Step>, ids: set<string>, registry: set<string>) {
    forall i :: 0 <= i < |steps| ==> StepOk(steps[i], ids, registry)
  }

  /** Two steps have this id. */
  ghost predicate Repeats(steps: seq<Step>, id: string) {
    exists i, j :: 0 <= i < j < |steps| && steps[i].stepId == id && steps[j].stepId == id
  }

  /** Target k is the first that is blank or unknown. */
  ghost predicate FirstBadTarget(targets: seq<string>, ids: set<string>, k: int) {
    && 0 <= k < |targets| && (Blank(targets[k]) || targets[k] !in ids)
    && forall j :: 0 <= j < k ==> !Blank(targets[j]) && targets[j] in ids
  }

  ghost predicate TargetFault(e: ValidationError, targets: seq<string>, ids: set<string>) {
    if e.BlankTarget? then exists k :: FirstBadTarget(targets, ids, k) && Blank(targets[k])
    else e.UnknownTarget? && exists k :: FirstBadTarget(targets, ids, k) && !Blank(targets[k]) && targets[k] == e.target
  }

  /** An error about the fields of step i. */
  predicate OfStep(e: ValidationError, i: nat) {
    && (e.BlankTarget? || e.UnknownTarget? || e.BadJoinPolicy? || e.MissingGateType? || e.UnknownGateType?
        || e.BadRetryAttempts? || e.BadRetryInterval?)
    && e.index == i
  }

  /** What the checks of one step find first: its targets, its join policy, its gate, its retries. */
  ghost predicate StepFault(e: ValidationError, s: Step, ids: set<string>, registry: set<string>) {
    if e.BlankTarget? || e.UnknownTarget? then TargetFault(e, s.SuccessIds() + s.ErrorIds(), ids) else
    TargetsOk(s.onSuccess, ids) && TargetsOk(s.onError, ids) &&
    if e.BadJoinPolicy? then s.joinPolicy.Some? && s.joinPolicy.value !in VALID_JOIN_POLICIES else
    (s.joinPolicy.Some? ==> s.joinPolicy.value in VALID_JOIN_POLICIES) &&
    if e.MissingGateType? then s.IsGate() && (s.gateType == None || Blank(s.gateType.value))
    else if e.UnknownGateType? then
      s.IsGate() && s.gateType.Some? && !Blank(s.gateType.value) && Strip(s.gateType.value) !in registry
    else
    GateTypeOk(s, registry) && s.retryEnabled &&
    if e.BadRetryAttempts? then !s.retryMaxAttempts.Is? || s.retryMaxAttempts.value < 1
    else
      && e.BadRetryInterval? && s.retryMaxAttempts.Is? && s.retryMaxAttempts.value >= 1
      && (!s.retryIntervalSeconds.Is? || s.retryIntervalSeconds.value < 1)
  }

  /** The error is about the first step whose fields are not in order. */
  ghost predicate FirstFault(e: ValidationError, steps: seq<Step>, ids: set<string>, registry: set<string>) {
    exists i :: 0 <= i < |steps| && OfStep(e, i) && StepsOk(steps[..i], ids, registry)
      && StepFault(e, steps[i], ids, registry)
  }

  ghost predicate ShapeFault(e: ValidationError, s: Step, actionId: Option<int>) {
    && s.Type() == "platform"
    && if e.MissingReferencedAction? then s.referencedActionId == None
       else e.SelfReference? && RefersToItself(s, actionId)
  }

  ghost predicate IdFault(e: ValidationError, steps: seq<Step>, uses: bool) {
    match e
    case DuplicateStepIds(ids) =>
      && IdsOk(steps, uses) && ids != {}
      && (forall id :: id in ids <==> id != "" && Repeats(steps, id))
    case MissingStepId(i) => i < |steps| && IdsOk(steps[..i], uses) && uses && steps[i].stepId == ""
    case BlankStepId(i) => i < |steps| && IdsOk(steps[..i], uses) && steps[i].stepId != "" && Blank(steps[i].stepId)
    case _ => false
  }

  ghost predicate GraphFault(e: ValidationError, steps: seq<Step>) {
    var exits := exists i :: 0 <= i < |steps| && IsExit(steps[i]);
    match e
    case NoExitPoint => !exits
    case InfiniteLoop(path) => exits && IsCycle(GraphOf(steps), path)
    case GateInBranch(gate, origin) =>
      exits && Acyclic(GraphOf(steps)) && GateCheck.LeadsToGate(steps, StepIds(steps), gate, origin)
    case _ => false
  }

  /** The error tells of the first check that fails, in the order in which the passes run: the references of all steps,
      their ids, then each step's own fields, then the graph. */
  ghost predicate Explains(e: ValidationError, steps: seq<Step>, actionId: Option<int>, registry: set<string>) {
    var after, ids := AllWithDefaults(steps), StepIds(steps);
    if e.MissingReferencedAction? || e.SelfReference? then
      e.index < |steps| && ShapesOk(steps[..e.index], actionId) && ShapeFault(e, steps[e.index], actionId)
    else
    ShapesOk(steps, actionId) &&
    if e.MissingStepId? || e.BlankStepId? || e.DuplicateStepIds? then IdFault(e, steps, AnyUses(steps)) else
    IdsOk(steps, AnyUses(steps)) && UniqueIds(steps) &&
    if e.NoExitPoint? || e.InfiniteLoop? || e.GateInBranch? then
      AnyUses(steps) && StepsOk(after, ids, registry) && GraphFault(e, after)
    else FirstFault(e, after, ids, registry)
  }

  /** The defaults change nothing that the first checks look at. */
  lemma DefaultsOnStep(s: Step, actionId: Option<int>)
    ensures var d := WithDefaults(s);
            && d.stepId == s.stepId
            && UsesBranchesOrRetry(d) == UsesBranchesOrRetry(s)
            && ShapeOk(d, actionId) == ShapeOk(s, actionId)
  {
  }

  lemma DefaultsKeepIds(steps: seq<Step>, actionId: Option<int>)
    ensures var d := AllWithDefaults(steps);
            && StepIds(d) == StepIds(steps) && UniqueIds(d) == UniqueIds(steps) && AnyUses(d) == AnyUses(steps)
            && (forall i :: 0 <= i < |steps| ==> d[i].stepId == steps[i].stepId)
            && (forall i :: 0 <= i < |steps| ==> ShapeOk(d[i], actionId) == ShapeOk(steps[i], actionId))
  {
    hide WithDefaults, ShapeOk, UsesBranchesOrRetry;
    var d := AllWithDefaults(steps);
    forall i | 0 <= i < |steps|
      ensures d[i].stepId == steps[i].stepId && UsesBranchesOrRetry(d[i]) == UsesBranchesOrRetry(steps[i])
      ensures ShapeOk(d[i], actionId) == ShapeOk(steps[i], actionId)
    {
      DefaultsOnStep(steps[i], actionId);
    }
    forall id
      ensures id in StepIds(d) <==> id in StepIds(steps)
    {
      StepIdsMember(d, id);
      StepIdsMember(steps, id);
    }
  }

  /** The three passes together decide LocallyOk of the defaulted list. */
  lemma PassesDecideLocallyOk(before: seq<Step>, actionId: Option<int>, registry: set<string>)
    ensures var after := AllWithDefaults(before);
            LocallyOk(after, actionId, registry) <==>
              && (forall i :: 0 <= i < |before| ==> ShapeOk(before[i], actionId))
              && (forall i :: 0 <= i < |before| ==> IdOk(before[i], AnyUses(before)))
              && UniqueIds(before)
              && (forall i :: 0 <= i < |before| ==> StepOk(after[i], StepIds(before), registry))
  {
    hide StepOk, StepIds, UniqueIds, WithDefaults;
    DefaultsKeepIds(before, actionId);
    var after := AllWithDefaults(before);
    assert forall i :: 0 <= i < |before| ==> IdOk(after[i], AnyUses(before)) == IdOk(before[i], AnyUses(before));
  }

  method CheckShapes(steps: seq<Step>, actionId: Option<int>) returns (error: Option<ValidationError>)
    ensures error.None? <==> ShapesOk(steps, actionId)
    ensures error.Some? ==>
      (error.value.MissingReferencedAction? || error.value.SelfReference?) && Explains(error.value, steps, actionId, {})
  {
    for i := 0 to |steps|
      invariant forall k :: 0 <= k < i ==> ShapeOk(steps[k], actionId)
    {
      if steps[i].Type() == "platform" {
        assert ShapesOk(steps[..i], actionId);
        if steps[i].referencedActionId == None {
          return Some(MissingReferencedAction(i));
        }
        if RefersToItself(steps[i], actionId) {
          return Some(SelfReference(i));
        }
      }
    }
    error := None;
  }

  /** counts says how often each id occurs, up to telling once from more than once. */
  ghost predicate CountsMatch(steps: seq<Step>, counts: map<string, nat>) {
    && counts.Keys == StepIds(steps)
    && (forall id :: id in counts ==> counts[id] >= 1)
    && (forall id :: id in counts ==> (counts[id] > 1 <==> Repeats(steps, id)))
  }

  lemma RepeatsSnoc(steps: seq<Step>, s: Step, id: string)
    requires id != ""
    ensures Repeats(steps + [s], id) <==> Repeats(steps, id) || (s.stepId == id && id in StepIds(steps))
  {
    StepIdsMember(steps, id);
    var longer := steps + [s];
    assert forall i :: 0 <= i < |steps| ==> longer[i] == steps[i];
    if Repeats(steps, id) {
      var i, j :| 0 <= i < j < |steps| && steps[i].stepId == id && steps[j].stepId == id;
      assert longer[i].stepId == id && longer[j].stepId == id;
    }
    if s.stepId == id && id in StepIds(steps) {
      var i :| 0 <= i < |steps| && steps[i].stepId == id;
      assert longer[i].stepId == id && longer[|steps|].stepId == id;
    }
  }

  lemma CountOneMore(steps: seq<Step>, counts: map<string, nat>, s: Step)
    requires CountsMatch(steps, counts) && s.stepId != ""
    ensures CountsMatch(steps + [s], counts[s.stepId := (if s.stepId in counts then counts[s.stepId] else 0) + 1])
  {
    UniqueSnoc(steps, s);
    hide UniqueIds, StepIds, Repeats;
    var id := s.stepId;
    var counts' := counts[id := (if id in counts then counts[id] else 0) + 1];
    forall k | k in counts'
      ensures counts'[k] > 1 <==> Repeats(steps + [s], k)
    {
      StepIdsMember(steps, k);
      RepeatsSnoc(steps, s, k);
      if Repeats(steps, k) {
        RepeatsHeld(steps, k);
      }
    }
  }

  lemma RepeatsHeld(steps: seq<Step>, id: string)
    requires id != "" && Repeats(steps, id)
    ensures id in StepIds(steps)
  {
    StepIdsMember(steps, id);
  }

  /** Collects the step ids; rejects missing, blank and repeated ones. */
  method CollectStepIds(steps: seq<Step>, uses: bool)
    returns (error: Option<ValidationError>, stepIds: set<string>)
    ensures error.None? <==> IdsOk(steps, uses) && UniqueIds(steps)
    ensures error.Some? ==> IdFault(error.value, steps, uses)
    ensures error.None? ==> stepIds == StepIds(steps)
  {
    hide Repeats, UniqueIds, Blank;
    stepIds := {};
    var counts: map<string, nat> := map[];
    NoCounts(steps);
    for i := 0 to |steps|
      invariant CountsMatch(steps[..i], counts) && stepIds == counts.Keys
      invariant IdsOk(steps[..i], uses)
    {
      hide CountsMatch;
      var id := steps[i].stepId;
      assert steps[..i + 1] == steps[..i] + [steps[i]];
      if uses && id == "" {
        return Some(MissingStepId(i)), stepIds;
      }
      if id != "" {
        if Blank(id) {
          return Some(BlankStepId(i)), stepIds;
        }
        CountOneMore(steps[..i], counts, steps[i]);
        counts := counts[id := (if id in counts then counts[id] else 0) + 1];
        stepIds := stepIds + {id};
      } else {
        EmptyIdKeepsCounts(steps[..i], counts, steps[i]);
      }
    }
    assert steps[..|steps|] == steps;
    var duplicates := set id | id in counts && counts[id] > 1;
    DuplicatesRepeat(steps, counts, duplicates);
    if duplicates != {} {
      return Some(DuplicateStepIds(duplicates)), stepIds;
    }
    error := None;
  }

  lemma NoCounts(steps: seq<Step>)
    ensures CountsMatch(steps[..0], map[]) && IdsOk(steps[..0], true) && IdsOk(steps[..0], false)
  {
  }

  lemma DuplicatesRepeat(steps: seq<Step>, counts: map<string, nat>, duplicates: set<string>)
    requires CountsMatch(steps, counts) && duplicates == set id | id in counts && counts[id] > 1
    ensures forall id :: id in duplicates <==> id != "" && Repeats(steps, id)
    ensures duplicates == {} <==> UniqueIds(steps)
  {
    hide StepIds;
    forall id
      ensures id in duplicates <==> id != "" && Repeats(steps, id)
    {
      StepIdsMember(steps, id);
    }
    if i, j :| 0 <= i < j < |steps| && steps[i].stepId == steps[j].stepId && steps[i].stepId != "" {
      assert Repeats(steps, steps[i].stepId);
      assert steps[i].stepId in duplicates;
    } else {
      assert UniqueIds(steps);
      assert forall id :: id !in duplicates;
    }
  }

  lemma EmptyIdKeepsCounts(steps: seq<Step>, counts: map<string, nat>, s: Step)
    requires CountsMatch(steps, counts) && s.stepId == ""
    ensures CountsMatch(steps + [s], counts)
  {
    UniqueSnoc(steps, s);
    StepIdsMember(steps, "");
    hide StepIds, Repeats, UniqueIds;
    forall k | k in counts
      ensures counts[k] > 1 <==> Repeats(steps + [s], k)
    {
      StepIdsMember(steps, k);
      RepeatsSnoc(steps, s, k);
    }
  }

  method CheckTargets(index: nat, targets: seq<string>, stepIds: set<string>) returns (error: Option<ValidationError>)
    ensures error.None? <==> TargetsOk(Is(targets), stepIds)
    ensures error.Some? ==> OfStep(error.value, index) && TargetFault(error.value, targets, stepIds)
  {
    for k := 0 to |targets|
      invariant forall j :: 0 <= j < k ==> !Blank(targets[j]) && targets[j] in stepIds
    {
      hide Blank;
      assert FirstBadTarget(targets, stepIds, k) <==> Blank(targets[k]) || targets[k] !in stepIds;
      if Blank(targets[k]) {
        return Some(BlankTarget(index));
      }
      if targets[k] !in stepIds {
        return Some(UnknownTarget(index, targets[k]));
      }
    }
    error := None;
  }

  /** The checks of one step after its retry defaults have been written. */
  method CheckStep(index: nat, s: Step, uses: bool, stepIds: set<string>, registry: set<string>)
    returns (error: Option<ValidationError>)
    requires !uses ==> !UsesBranchesOrRetry(s)
    ensures error.None? <==> StepOk(s, stepIds, registry)
    ensures error.Some? ==> OfStep(error.value, index) && StepFault(error.value, s, stepIds, registry)
  {
    hide Blank, Strip;
    if uses && s.onSuccess.Is? {
      error := CheckTargets(index, s.onSuccess.value, stepIds);
      if error.Some? {
        BadSuccess(error.value, s, stepIds);
        return;
      }
    }
    if uses && s.onError.Is? {
      error := CheckTargets(index, s.onError.value, stepIds);
      if error.Some? {
        BadError(error.value, s, stepIds);
        return;
      }
    }
    if s.joinPolicy.Some? && s.joinPolicy.value !in VALID_JOIN_POLICIES {
      return Some(BadJoinPolicy(index));
    }
    if s.IsGate() {
      if s.gateType == None || Blank(s.gateType.value) {
        return Some(MissingGateType(index));
      }
      if Strip(s.gateType.value) !in registry {
        return Some(UnknownGateType(index));
      }
    }
    if s.retryEnabled {
      if !s.retryMaxAttempts.Is? || s.retryMaxAttempts.value < 1 {
        return Some(BadRetryAttempts(index));
      }
      if !s.retryIntervalSeconds.Is? || s.retryIntervalSeconds.value < 1 {
        return Some(BadRetryInterval(index));
      }
    }
    error := None;
  }

  /** The success list comes before the error list. */
  lemma BadSuccess(e: ValidationError, s: Step, ids: set<string>)
    requires TargetFault(e, s.SuccessIds(), ids)
    ensures TargetFault(e, s.SuccessIds() + s.ErrorIds(), ids)
  {
    hide Blank;
    var targets, all := s.SuccessIds(), s.SuccessIds() + s.ErrorIds();
    var k :| FirstBadTarget(targets, ids, k) && Blank(targets[k]) == e.BlankTarget?
      && (e.UnknownTarget? ==> targets[k] == e.target);
    assert all[k] == targets[k] && FirstBadTarget(all, ids, k);
  }

  lemma BadError(e: ValidationError, s: Step, ids: set<string>)
    requires TargetsOk(s.onSuccess, ids) && TargetFault(e, s.ErrorIds(), ids)
    ensures TargetFault(e, s.SuccessIds() + s.ErrorIds(), ids)
  {
    hide Blank;
    var targets, all, n := s.ErrorIds(), s.SuccessIds() + s.ErrorIds(), |s.SuccessIds()|;
    var k :| FirstBadTarget(targets, ids, k) && Blank(targets[k]) == e.BlankTarget?
      && (e.UnknownTarget? ==> targets[k] == e.target);
    assert all[n + k] == targets[k] && FirstBadTarget(all, ids, n + k);
  }

  /** The second pass: writes the defaults and checks each step, in order. */
  method CheckEachStep(steps: array<Step>, uses: bool, stepIds: set<string>, registry: set<string>)
    returns (error: Option<ValidationError>, hasExitPoint: bool)
    requires uses == AnyUses(AllWithDefaults(steps[..]))
    modifies steps
    ensures error.None? <==> StepsOk(AllWithDefaults(old(steps[..])), stepIds, registry)
    ensures error.Some? ==> FirstFault(error.value, AllWithDefaults(old(steps[..])), stepIds, registry)
    ensures error.None? ==> steps[..] == AllWithDefaults(old(steps[..]))
    ensures error.None? && uses ==>
      (hasExitPoint <==> exists k :: 0 <= k < steps.Length && IsExit(AllWithDefaults(old(steps[..]))[k]))
    ensures PrefixDefaulted(old(steps[..]), steps[..])
  {
    ghost var before := steps[..];
    ghost var after := AllWithDefaults(before);
    hasExitPoint := false;
    error := None;
    for i := 0 to steps.Length
      invariant error.None?
      invariant forall k :: 0 <= k < i ==> steps[k] == after[k]
      invariant forall k :: i <= k < steps.Length ==> steps[k] == before[k]
      invariant forall k :: 0 <= k < i ==> StepOk(after[k], stepIds, registry)
      invariant uses ==> (hasExitPoint <==> exists k :: 0 <= k < i && IsExit(after[k]))
    {
      steps[i] := WithDefaults(steps[i]);
      assert steps[i] == after[i];
      if uses && IsExit(steps[i]) {
        hasExitPoint := true;
      }
      error := CheckStep(i, steps[i], uses, stepIds, registry);
      if error.Some? {
        IsPrefixDefaulted(before, steps[..], i + 1);
        assert !StepOk(after[i], stepIds, registry) && StepsOk(after[..i], stepIds, registry);
        return;
      }
    }
    IsPrefixDefaulted(before, steps[..], steps.Length);
  }

  /** The defaults have been written to a prefix of the list and to nothing else. */
  ghost predicate PrefixDefaulted(before: seq<Step>, now: seq<Step>) {
    exists m :: 0 <= m <= |before| && now == AllWithDefaults(before[..m]) + before[m..]
  }

  lemma IsPrefixDefaulted(before: seq<Step>, now: seq<Step>, m: nat)
    requires m <= |before| == |now|
    requires forall k :: 0 <= k < m ==> now[k] == WithDefaults(before[k])
    requires forall k :: m <= k < |now| ==> now[k] == before[k]
    ensures PrefixDefaulted(before, now)
  {
    assert now == AllWithDefaults(before[..m]) + before[m..];
  }

  method CheckGraph(steps: seq<Step>, stepIds: set<string>, hasExitPoint: bool)
    returns (error: Option<ValidationError>)
    requires stepIds == StepIds(steps)
    requires hasExitPoint <==> exists k :: 0 <= k < |steps| && IsExit(steps[k])
    ensures error.None? <==> GloballyOk(steps)
    ensures error.Some? ==> GraphFault(error.value, steps)
  {
    if !hasExitPoint {
      return Some(NoExitPoint);
    }
    var cycle := CycleCheck.DetectWorkflowCycles(steps);
    if cycle.Some? {
      assert IsCycle(GraphOf(steps), cycle.value);
      return Some(InfiniteLoop(cycle.value));
    }
    var gate := GateCheck.DetectGatesInParallelBranches(steps, stepIds);
    if gate.Some? {
      return Some(GateInBranch(gate.value.0, gate.value.1));
    }
    error := None;
  }

  /** Validates the steps in place. Accepts exactly the lists that are Accepted once the defaults are
      written; a rejected list keeps the defaults already written to a prefix of it. */
  method ValidateWorkflowSteps(steps: array<Step>, actionId: Option<int>, registry: set<string>)
    returns (error: Option<ValidationError>)
    modifies steps
    ensures error.None? <==> Accepted(AllWithDefaults(old(steps[..])), actionId, registry)
    ensures error.None? ==> steps[..] == AllWithDefaults(old(steps[..]))
    ensures error.Some? ==> Explains(error.value, old(steps[..]), actionId, registry)
    ensures PrefixDefaulted(old(steps[..]), steps[..])
  {
    hide Explains, FirstFault, IdFault, GraphFault, IsExit, UniqueIds, StepIds, GloballyOk;
    ghost var before := steps[..];
    DefaultsKeepIds(before, actionId);
    PassesDecideLocallyOk(before, actionId, registry);
    IsPrefixDefaulted(before, before, 0);
    if steps.Length == 0 {
      return None;
    }
    error := CheckShapes(steps[..], actionId);
    if error.Some? {
      ShapeExplained(error.value, before, actionId, registry);
      return;
    }
    var uses := AnyUses(steps[..]);
    var stepIds;
    error, stepIds := CollectStepIds(steps[..], uses);
    if error.Some? {
      IdsExplained(error.value, before, actionId, registry);
      return;
    }
    var hasExitPoint;
    error, hasExitPoint := CheckEachStep(steps, uses, stepIds, registry);
    if error.Some? {
      FieldsExplained(error.value, before, actionId, registry);
      return;
    }
    assert LocallyOk(steps[..], actionId, registry);
    if uses {
      error := CheckGraph(steps[..], stepIds, hasExitPoint);
      if error.Some? {
        GraphExplained(error.value, before, actionId, registry);
      }
    }
  }

  lemma ShapeExplained(e: ValidationError, steps: seq<Step>, actionId: Option<int>, registry: set<string>)
    requires Explains(e, steps, actionId, {}) && (e.MissingReferencedAction? || e.SelfReference?)
    ensures Explains(e, steps, actionId, registry)
  {
  }

  lemma IdsExplained(e: ValidationError, steps: seq<Step>, actionId: Option<int>, registry: set<string>)
    requires ShapesOk(steps, actionId) && IdFault(e, steps, AnyUses(steps))
    ensures Explains(e, steps, actionId, registry)
  {
  }

  lemma FieldsExplained(e: ValidationError, steps: seq<Step>, actionId: Option<int>, registry: set<string>)
    requires ShapesOk(steps, actionId) && IdsOk(steps, AnyUses(steps)) && UniqueIds(steps)
    requires FirstFault(e, AllWithDefaults(steps), StepIds(steps), registry)
    ensures Explains(e, steps, actionId, registry)
  {
    hide StepFault, StepsOk;
  }

  lemma GraphExplained(e: ValidationError, steps: seq<Step>, actionId: Option<int>, registry: set<string>)
    requires ShapesOk(steps, actionId) && IdsOk(steps, AnyUses(steps)) && UniqueIds(steps) && AnyUses(steps)
    requires StepsOk(AllWithDefaults(steps), StepIds(steps), registry) && GraphFault(e, AllWithDefaults(steps))
    ensures Explains(e, steps, actionId, registry)
  {
    hide StepsOk;
  }
}
