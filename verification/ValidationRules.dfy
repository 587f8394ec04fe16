/** What an accepted step list is, rule by rule, said of the list as it is handed in. */
module ValidationRules {
  import opened Digraph
  import opened Workflow
  import opened Text
  import opened Validator
  import opened GraphRules
  import GateCheck

  /** The list has a branch or retry key that is present, null or not. */
  ghost predicate HasBranchOrRetry(steps: seq<Step>) {
    exists i :: 0 <= i < |steps| && HasKey(steps[i])
  }

  predicate HasKey(s: Step) {
    || !s.onSuccess.Missing? || !s.onError.Missing? || s.retryEnabled
    || !s.retryMaxAttempts.Missing? || !s.retryIntervalSeconds.Missing? || !s.retryBackoffMultiplier.Missing?
  }

  /** A platform step refers to an action, and not to the one it belongs to. */
  predicate RefersWell(s: Step, actionId: Option<int>) {
    s.stepType == None || s.stepType == Some("") || s.stepType == Some("platform") ==>
      && !s.referencedActionId.None?
      && (actionId.Some? && s.referencedActionId.value.Number? ==> s.referencedActionId.value.n != actionId.value)
  }

  ghost predicate HasInk(text: string) {
    exists k :: 0 <= k < |text| && !IsSpace(text[k])
  }

  /** Ids are present where branches or retries are used, not blank, and different. */
  ghost predicate IdsWell(steps: seq<Step>) {
    && (forall i :: 0 <= i < |steps| ==>
        (HasBranchOrRetry(steps) || steps[i].stepId != "") ==> HasInk(steps[i].stepId))
    && (forall i, j :: 0 <= i < j < |steps| && steps[i].stepId != "" ==> steps[i].stepId != steps[j].stepId)
  }

  /** Whatever a branch list names is a step. */
  ghost predicate TargetsWell(steps: seq<Step>, s: Step) {
    forall t :: (s.onSuccess.Is? && t in s.onSuccess.value) || (s.onError.Is? && t in s.onError.value) ==>
      HasInk(t) && exists j :: 0 <= j < |steps| && steps[j].stepId == t
  }

  predicate PolicyWell(s: Step) {
    match s.joinPolicy
    case None => true
    case Some(p) =>
      || p == "all_success" || p == "one_success" || p == "all_done" || p == "all_failed" || p == "one_failed"
  }

  ghost predicate GateWell(s: Step, registry: set<string>) {
    s.stepType == Some("gate") ==>
      match s.gateType
      case None => false
      case Some(g) => HasInk(g) && Strip(g) in registry
  }

  /** With retries on, numbers that are given are positive; the others get defaults. */
  predicate RetryWell(s: Step) {
    s.retryEnabled ==>
      && (s.retryMaxAttempts.Is? ==> s.retryMaxAttempts.value >= 1)
      && (s.retryIntervalSeconds.Is? ==> s.retryIntervalSeconds.value >= 1)
  }

  ghost predicate StepWell(steps: seq<Step>, s: Step, actionId: Option<int>, registry: set<string>) {
    RefersWell(s, actionId) && TargetsWell(steps, s) && PolicyWell(s) && GateWell(s, registry) && RetryWell(s)
  }

  /** Some branch list is there and empty or null. */
  ghost predicate HasExit(steps: seq<Step>) {
    exists i :: 0 <= i < |steps| && EndsHere(steps[i])
  }

  predicate EndsHere(s: Step) {
    || s.onSuccess.Null? || (s.onSuccess.Is? && |s.onSuccess.value| == 0)
    || s.onError.Null? || (s.onError.Is? && |s.onError.value| == 0)
  }

  // ---------- the defaults ----------

  /** With retries on, missing or null numbers become 3 attempts, 60 seconds and a factor of 2; nothing else changes. */
  lemma DefaultsWritten(steps: seq<Step>)
    ensures var stored := AllWithDefaults(steps);
            && |stored| == |steps|
            && forall i :: 0 <= i < |steps| ==>
              var s, t := steps[i], stored[i];
              && (!s.retryEnabled ==> t == s)
              && (s.retryEnabled ==>
                  && t.retryMaxAttempts == (if s.retryMaxAttempts.Is? then s.retryMaxAttempts else Is(3))
                  && t.retryIntervalSeconds == (if s.retryIntervalSeconds.Is? then s.retryIntervalSeconds else Is(60))
                  && t.retryBackoffMultiplier ==
                    (if s.retryBackoffMultiplier.Is? then s.retryBackoffMultiplier else Is(2.0))
                  && s == t.(retryMaxAttempts := s.retryMaxAttempts, retryIntervalSeconds := s.retryIntervalSeconds,
                             retryBackoffMultiplier := s.retryBackoffMultiplier))
  {
  }

  // ---------- the rules ----------

  lemma InkIff(text: string)
    ensures HasInk(text) <==> !Blank(text)
  {
  }

  lemma KeysIff(steps: seq<Step>)
    ensures HasBranchOrRetry(steps) <==> AnyUses(steps)
  {
    assert forall i :: 0 <= i < |steps| ==> (HasKey(steps[i]) <==> UsesBranchesOrRetry(steps[i]));
  }

  lemma IdsIff(steps: seq<Step>)
    ensures IdsWell(steps) <==>
      UniqueIds(steps) && forall i :: 0 <= i < |steps| ==> IdOk(steps[i], AnyUses(steps))
  {
    hide Blank, HasInk, AnyUses, HasBranchOrRetry;
    KeysIff(steps);
    forall i | 0 <= i < |steps|
      ensures HasInk(steps[i].stepId) <==> !Blank(steps[i].stepId)
      ensures steps[i].stepId == "" ==> !HasInk(steps[i].stepId)
    {
      InkIff(steps[i].stepId);
      NoInk();
    }
  }

  lemma NoInk()
    ensures !HasInk("")
  {
  }

  lemma TargetsIff(steps: seq<Step>, s: Step)
    ensures TargetsWell(steps, s) <==> TargetsOk(s.onSuccess, StepIds(steps)) && TargetsOk(s.onError, StepIds(steps))
  {
    hide Blank, HasInk, StepIds;
    forall t
      ensures HasInk(t) && (exists j :: 0 <= j < |steps| && steps[j].stepId == t) <==> !Blank(t) && t in StepIds(steps)
    {
      InkIff(t);
      NoInk();
      StepIdsMember(steps, t);
    }
  }

  lemma StepIff(steps: seq<Step>, s: Step, actionId: Option<int>, registry: set<string>)
    ensures StepWell(steps, s, actionId, registry) <==>
      ShapeOk(s, actionId) && StepOk(WithDefaults(s), StepIds(steps), registry)
  {
    hide Blank, HasInk, StepIds, TargetsWell, TargetsOk, Strip;
    TargetsIff(steps, s);
    if s.gateType.Some? {
      InkIff(s.gateType.value);
    }
  }

  lemma ExitIff(steps: seq<Step>)
    ensures HasExit(steps) <==> exists i :: 0 <= i < |steps| && IsExit(AllWithDefaults(steps)[i])
  {
    assert forall i :: 0 <= i < |steps| ==> (EndsHere(steps[i]) <==> IsExit(AllWithDefaults(steps)[i]));
  }

  /** The defaults are not part of the graph. */
  lemma GraphIff(steps: seq<Step>)
    ensures GoesRound(steps) <==> !Acyclic(GraphOf(AllWithDefaults(steps)))
    ensures var stored := AllWithDefaults(steps);
            GateInParallel(steps) <==> GateCheck.GateInFanOut(stored, StepIds(stored))
  {
    hide Acyclic, GateCheck.GateInFanOut, GoesRound, GateInParallel;
    var stored := AllWithDefaults(steps);
    GoesRoundIff(stored);
    GateInParallelIff(stored);
    AlikeGraphs(steps, stored);
  }

  /** A list passes validation exactly when it obeys these rules. Nothing else is looked at, and a list that breaks one
      is rejected. */
  lemma AcceptedIff(steps: seq<Step>, actionId: Option<int>, registry: set<string>)
    ensures var stored := AllWithDefaults(steps);
            Accepted(stored, actionId, registry) <==>
              steps == [] ||
              (&& IdsWell(steps)
               && (forall i :: 0 <= i < |steps| ==> StepWell(steps, steps[i], actionId, registry))
               && (HasBranchOrRetry(steps) ==>
                   HasExit(steps) && !GoesRound(steps) && !GateInParallel(steps)))
  {
    hide StepWell, ShapeOk, StepOk, IdOk, IdsWell, HasBranchOrRetry, HasExit, AnyUses, IsExit, WithDefaults, Acyclic,
         GateCheck.GateInFanOut, StepIds, UniqueIds, GoesRound, GateInParallel;
    GraphIff(steps);
    PassesDecideLocallyOk(steps, actionId, registry);
    DefaultsKeepIds(steps, actionId);
    KeysIff(steps);
    IdsIff(steps);
    ExitIff(steps);
    forall i | 0 <= i < |steps|
      ensures StepWell(steps, steps[i], actionId, registry) <==>
        ShapeOk(steps[i], actionId) && StepOk(AllWithDefaults(steps)[i], StepIds(steps), registry)
    {
      StepIff(steps, steps[i], actionId, registry);
    }
  }

  /** In particular an accepted list has no platform step without a reference, and none that refers to the action it
      belongs to. */
  lemma AcceptedReferences(steps: seq<Step>, actionId: Option<int>, registry: set<string>, i: nat)
    requires Accepted(AllWithDefaults(steps), actionId, registry) && i < |steps|
    requires steps[i].stepType == None || steps[i].stepType == Some("") || steps[i].stepType == Some("platform")
    ensures steps[i].referencedActionId != None
    ensures forall n :: actionId == Some(n) ==> steps[i].referencedActionId != Some(Number(n))
  {
    hide Accepted, TargetsWell, GateWell, PolicyWell, RetryWell, IdsWell, HasExit, HasBranchOrRetry, GoesRound,
         GateInParallel;
    AcceptedIff(steps, actionId, registry);
    assert StepWell(steps, steps[i], actionId, registry);
  }
}
