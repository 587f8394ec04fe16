/** What an import sets, field by field, what it rejects, and what it reports. */
module ImportReports {
  import opened ActionImport
  import opened ImportOutcomes
  import opened Text
  import opened Workflow
  import opened Validator

  // ---------- the fields ----------

  /** The key is missing, null or blank. */
  predicate Unsaid(f: Field<string>) {
    match f
    case Is(v) => forall i :: 0 <= i < |v| ==> IsSpace(v[i])
    case _ => true
  }

  /** A text as it is; missing, null and empty ones are null. */
  predicate SetsText(f: Field<string>, v: Option<string>) {
    v == match f
         case Is(text) => if text == "" then None else Some(text)
         case _ => None
  }

  predicate SetsJson(f: Field<Json>, v: Option<Json>) {
    v == match f
         case Is(json) => Some(json)
         case _ => None
  }

  /** A name that is given and not empty stands for the row called so. */
  predicate SetsReference(f: Field<string>, names: map<string, int>, v: Option<int>) {
    match f
    case Is(name) => if name == "" then v == None else name in names && v == Some(names[name])
    case _ => v == None
  }

  predicate NamesNothing(f: Field<string>, names: map<string, int>) {
    f.Is? && f.value != "" && f.value !in names
  }

  /** Actions unless something else is said. */
  predicate SetsItemType(f: Field<string>, v: string) {
    if Unsaid(f) then v == "action" else f.Is? && v == Lower(Strip(f.value))
  }

  predicate SetsSteps(f: Field<seq<Step>>, workflow: bool, v: Option<seq<Step>>) {
    v == match f
         case Is(steps) => Some(if workflow then AllWithDefaults(steps) else steps)
         case _ => None
  }

  /** A document that is accepted sets these fields. */
  ghost predicate Sets(db: Db, doc: Document, f: Fields) {
    && doc.engine.Is? && f.engine == Strip(doc.engine.value) && doc.platform.Is?
    && f.platform == Strip(doc.platform.value)
    && (if doc.status.Missing? then f.status == "draft" else doc.status == Is(f.status))
    && SetsItemType(doc.itemType, f.itemType)
    && (if doc.requiresTarget.Missing? then f.requiresTarget else doc.requiresTarget == Is(f.requiresTarget))
    && SetsText(doc.description, f.description) && SetsText(doc.category, f.category)
    && SetsText(doc.impactLevel, f.impactLevel) && SetsText(doc.documentation, f.documentation)
    && SetsReference(doc.integrationRef, db.integrations, f.integration)
    && SetsReference(doc.policyRef, db.policies, f.policy)
    && SetsJson(doc.parametersSchema, f.parametersSchema) && SetsJson(doc.impactRules, f.impactRules)
    && SetsJson(doc.notificationConfig, f.notificationConfig) && SetsJson(doc.remediationRules, f.remediationRules)
    && SetsSteps(doc.steps, f.itemType == "workflow", f.steps)
  }

  ghost predicate StepsRejected(doc: Document, registry: set<string>) {
    && doc.steps.Is? && SetsItemType(doc.itemType, "workflow")
    && !Accepted(AllWithDefaults(doc.steps.value), None, registry)
  }

  /** The checks in their order. */
  ghost function FieldError(db: Db, doc: Document, registry: set<string>): Option<Error> {
    if Unsaid(Is(doc.name)) then Some(MissingName)
    else if Unsaid(doc.engine) then Some(MissingEngine)
    else if Unsaid(doc.platform) then Some(MissingPlatform)
    else if NamesNothing(doc.integrationRef, db.integrations) then Some(IntegrationNotFound)
    else if NamesNothing(doc.policyRef, db.policies) then Some(PolicyNotFound)
    else if StepsRejected(doc, registry) then Some(InvalidWorkflowSteps)
    else if doc.status.Null? || doc.requiresTarget.Null? then Some(ConstraintViolated)
    else None
  }

  lemma UnsaidIff(f: Field<string>)
    ensures Unsaid(f) <==> Strip(OrEmpty(f)) == ""
    ensures Unsaid(f) <==> Blank(OrEmpty(f))
    ensures !f.Is? ==> Unsaid(f)
  {
    hide IsSpace, Strip;
    BlankIffStripsToNothing(OrEmpty(f));
  }

  lemma ItemTypeSet(f: Field<string>, v: string)
    ensures SetsItemType(f, v) <==> ItemType(f) == v
  {
    hide IsSpace, Strip, Lower, Unsaid;
    UnsaidIff(f);
    NormalizedAction();
    LowerOfNothing();
  }

  lemma NormalizedAction()
    ensures Normalized("action") == "action"
  {
    NormalizedKeeps("action");
  }

  lemma LowerOfNothing()
    ensures forall s: string :: Lower(s) == "" <==> s == ""
  {
  }

  lemma FirstFieldError(db: Db, doc: Document, registry: set<string>)
    ensures var fields := FieldsOf(db, doc, registry);
            match FieldError(db, doc, registry)
            case Some(e) => fields == Err(e)
            case None => fields.Ok?
  {
    hide Unsaid, Strip, Blank, ItemType, SetsItemType, Accepted, AllWithDefaults;
    UnsaidIff(Is(doc.name));
    UnsaidIff(doc.engine);
    UnsaidIff(doc.platform);
    ItemTypeSet(doc.itemType, "workflow");
  }

  lemma FieldsSet(db: Db, doc: Document, registry: set<string>)
    requires FieldsOf(db, doc, registry).Ok?
    ensures Sets(db, doc, FieldsOf(db, doc, registry).value)
  {
    hide Unsaid, Strip, Blank, ItemType, SetsItemType, Accepted, AllWithDefaults;
    UnsaidIff(doc.engine);
    UnsaidIff(doc.platform);
    ItemTypeSet(doc.itemType, ItemType(doc.itemType));
  }

  /** The fields are read as the document says them, and the first thing wrong with it is the error. */
  lemma FieldsRead(db: Db, doc: Document, registry: set<string>)
    ensures var fields := FieldsOf(db, doc, registry);
            match FieldError(db, doc, registry)
            case Some(e) => fields == Err(e)
            case None => fields.Ok? && Sets(db, doc, fields.value)
  {
    hide FieldsOf, Sets, FieldError;
    FirstFieldError(db, doc, registry);
    if FieldsOf(db, doc, registry).Ok? {
      FieldsSet(db, doc, registry);
    }
  }

  // ---------- the mutex specifications ----------

  ghost predicate HasName(actions: map<int, Row>, name: string) {
    exists k :: k in actions && actions[k].name == name
  }

  /** Specification i is the first without a target, or whose target no action is called. */
  ghost predicate FirstBad(actions: map<int, Row>, specs: seq<MutexSpec>, i: int, e: Error) {
    && 0 <= i < |specs| && (forall j :: 0 <= j < i ==> Resolves(actions, specs[j]))
    && !Resolves(actions, specs[i])
    && e == if Unsaid(specs[i].incompatibleWith) then MissingMutexTarget else MutexActionNotFound
  }

  ghost predicate Resolves(actions: map<int, Row>, s: MutexSpec) {
    !Unsaid(s.incompatibleWith) && s.incompatibleWith.Is? && HasName(actions, Strip(s.incompatibleWith.value))
  }

  lemma FoundIff(actions: map<int, Row>, name: string)
    ensures FindAction(actions, name).Some? <==> HasName(actions, name)
  {
  }

  lemma {:induction false} ResolvedTells(actions: map<int, Row>, specs: seq<MutexSpec>)
    ensures Resolved(actions, specs).Ok? <==> forall i :: 0 <= i < |specs| ==> Resolves(actions, specs[i])
    ensures Resolved(actions, specs).Err? ==> exists i :: FirstBad(actions, specs, i, Resolved(actions, specs).error)
  {
    hide Unsaid, Strip, FindAction, HasName;
    if specs != [] {
      var n := |specs| - 1;
      var init := specs[..n];
      ResolvedTells(actions, init);
      UnsaidIff(specs[n].incompatibleWith);
      FoundIff(actions, Strip(OrEmpty(specs[n].incompatibleWith)));
      if Resolved(actions, init).Err? {
        var i :| FirstBad(actions, init, i, Resolved(actions, init).error);
        assert FirstBad(actions, specs, i, Resolved(actions, specs).error);
        assert !Resolves(actions, specs[i]);
      } else if Resolved(actions, specs).Err? {
        assert FirstBad(actions, specs, n, Resolved(actions, specs).error);
      }
    }
  }

  /** A rule of the action with itself, or one whose flag is null. */
  ghost predicate BadRule(actions: map<int, Row>, specs: seq<MutexSpec>, id: int) {
    || Named(actions, specs, id)
    || exists k, i :: LastNaming(actions, specs, k, i) && specs[i].sameTarget.Null?
  }

  lemma RulesStorableIff(actions: map<int, Row>, specs: seq<MutexSpec>, id: int, m: map<int, MutexSpec>)
    requires HoldsLast(actions, specs, m)
    ensures RulesStorable(id, m) <==> !BadRule(actions, specs, id)
  {
    hide NamesAction;
    forall k | k in m
      ensures exists i :: LastNaming(actions, specs, k, i)
    {
      LastExists(actions, specs, k, |specs|);
    }
  }

  lemma {:induction false} LastExists(actions: map<int, Row>, specs: seq<MutexSpec>, k: int, n: int)
    requires 0 <= n <= |specs| && (exists i :: 0 <= i < n && NamesAction(actions, specs[i], k))
    requires forall j :: n <= j < |specs| ==> !NamesAction(actions, specs[j], k)
    ensures exists i :: LastNaming(actions, specs, k, i)
  {
    hide NamesAction;
    if NamesAction(actions, specs[n - 1], k) {
      assert LastNaming(actions, specs, k, n - 1);
    } else {
      LastExists(actions, specs, k, n - 1);
    }
  }

  // ---------- the report ----------

  /** What the table lets in. */
  predicate Allowed(f: Fields, softDeleted: bool) {
    && (f.status == "draft" || f.status == "published" || f.status == "disabled")
    && (f.itemType == "action" || f.itemType == "workflow")
    && (f.impactLevel == None || f.impactLevel.value == "low" || f.impactLevel.value == "medium"
        || f.impactLevel.value == "high" || f.impactLevel.value == "critical")
    && (softDeleted ==> f.status == "disabled")
  }

  /** The row the document is about, with the fields it sets: the one of that name, or a new one. */
  ghost predicate IsRow(db: Db, name: string, f: Fields, newId: int, id: int, row: Row) {
    if HasName(db.actions, name) then id in db.actions && db.actions[id].name == name
      && row == db.actions[id].(fields := f)
    else id == newId && row == Row(name, f, false, {}, map[])
  }

  /** One action created, changed or left alone; every other one stays as it is. */
  ghost predicate Reports(db: Db, db': Db, id: int, row: Row, outcome: Outcome) {
    && outcome.Imported? && outcome.id == id && id in db'.actions
    && db'.actions.Keys == db.actions.Keys + {id}
    && (forall k :: k in db.actions && k != id ==> db'.actions[k] == db.actions[k])
    && db'.actions[id] == row.(tags := db'.actions[id].tags, mutex := db'.actions[id].mutex)
    && db'.integrations == db.integrations && db'.policies == db.policies
    && outcome.created == (if id in db.actions then 0 else 1)
    && outcome.updated == (if id in db.actions && db.actions[id].fields != row.fields then 1 else 0)
    && outcome.created + outcome.updated + outcome.untouched == 1
  }

  lemma RowIs(db: Db, name: string, f: Fields, newId: int, id: int, row: Row)
    requires UniqueNames(db.actions)
    ensures IsRow(db, name, f, newId, id, row) <==> WithFields(db, name, f, newId) == (id, row)
  {
    FoundIff(db.actions, name);
    FoundIsThere(db.actions, name);
  }

  /** What becomes of the import once its row has been saved. */
  ghost predicate FinishTells(db: Db, doc: Document, id: int, row: Row, db': Db, outcome: Outcome) {
    var actions := db.actions[id := row];
    if exists i :: 0 <= i < |doc.mutex| && !Resolves(actions, doc.mutex[i]) then
      outcome.Rejected? && exists i :: FirstBad(actions, doc.mutex, i, outcome.error)
    else if BadRule(actions, doc.mutex, id) then outcome == Rejected(ConstraintViolated)
    else Reports(db, db', id, row, outcome)
  }

  lemma FinishedTells(db: Db, doc: Document, mode: Mode, id: int, row: Row, added: set<string>)
    requires UniqueNames(db.actions[id := row])
    ensures var (db', outcome) := Finished(db, doc, mode, id, row, added);
            FinishTells(db, doc, id, row, db', outcome) && (outcome.Rejected? ==> db' == db)
  {
    hide Resolved, Strip, SyncedTags, SyncedMutex, Targets, BadRule, UniqueNames, RulesStorable, FirstBad, Resolves,
         HoldsLast;
    var actions := db.actions[id := row];
    ResolvedTells(actions, doc.mutex);
    var targets := Resolved(actions, doc.mutex);
    if targets.Ok? {
      ResolvedHoldsLast(actions, doc.mutex);
      RulesStorableIff(actions, doc.mutex, id, targets.value);
    }
  }

  /** What an import does: the first of the faults it can find rejects it and changes nothing; without one it sets the
      fields of one action and says whether it was created or changed. */
  lemma ImportReported(db: Db, doc: Document, mode: Mode, newId: int, registry: set<string>, db': Db, outcome: Outcome,
                       id: int, f: Fields, row: Row)
    requires UniqueNames(db.actions) && newId !in db.actions
    requires Imports(db, doc, mode, newId, registry, db', outcome)
    requires FieldError(db, doc, registry).None? ==>
      FieldsOf(db, doc, registry) == Ok(f) && IsRow(db, Strip(doc.name), f, newId, id, row)
    ensures outcome.Rejected? ==> db' == db
    ensures match FieldError(db, doc, registry)
            case Some(e) => outcome == Rejected(e)
            case None =>
              if !Allowed(f, row.softDeleted) then outcome == Rejected(ConstraintViolated)
              else FinishTells(db, doc, id, row, db', outcome)
  {
    hide FieldsOf, FieldError, WithFields, IsRow, Strip, TagsFor, Wanted, Finished, FinishTells, UniqueNames;
    FieldsRead(db, doc, registry);
    var added :| TagsFor(db.tagNames, Wanted(db, doc), added)
      && (db', outcome) == Applied(db, doc, mode, newId, registry, added);
    if FieldError(db, doc, registry).None? {
      RowIs(db, Strip(doc.name), f, newId, id, row);
      WithFieldsUnique(db, Strip(doc.name), f, newId);
      WithFieldsStored(db, Strip(doc.name), f, newId);
      FinishedTells(db, doc, mode, id, row, added);
    }
  }
}
