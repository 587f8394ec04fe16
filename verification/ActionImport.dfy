/** Importing an action from a configuration document, and exporting it to one. */
module ActionImport {
  import opened Text
  import opened Workflow
  import Validator

  // ---------- the database ----------

  /** A JSON value other than the steps: taken as it is. */
  datatype Json = Json(text: string)

  /** The definition fields of an action; an engine or platform that is null is the empty string. */
  datatype Fields = Fields(
    engine: string, platform: string, status: string, itemType: string, requiresTarget: bool,
    description: Option<string>, category: Option<string>, impactLevel: Option<string>, documentation: Option<string>,
    integration: Option<int>, policy: Option<int>,
    parametersSchema: Option<Json>, steps: Option<seq<Step>>, impactRules: Option<Json>,
    notificationConfig: Option<Json>, remediationRules: Option<Json>)

  datatype Rule = Rule(sameTarget: bool, description: Option<string>)

  /** tags: the names of the attached tags, as stored; mutex: the rules by the id of the other action. */
  datatype Row = Row(name: string, fields: Fields, softDeleted: bool, tags: set<string>, mutex: map<int, Rule>)

  datatype Db = Db(actions: map<int, Row>, tagNames: set<string>, integrations: map<string, int>,
      policies: map<string, int>)

  /** The checks of the actions table. */
  predicate Storable(f: Fields, softDeleted: bool) {
    && f.status in {"draft", "published", "disabled"} && f.itemType in {"action", "workflow"}
    && f.impactLevel in {None, Some("low"), Some("medium"), Some("high"), Some("critical")}
    && (f.status == "disabled" || !softDeleted)
  }

  ghost predicate UniqueNames(actions: map<int, Row>) {
    forall i, j :: i in actions && j in actions && actions[i].name == actions[j].name ==> i == j
  }

  ghost predicate Injective(m: map<string, int>) {
    forall a, b :: a in m && b in m && m[a] == m[b] ==> a == b
  }

  ghost predicate RowOk(db: Db, id: int)
    requires id in db.actions
  {
    var row := db.actions[id];
    && Storable(row.fields, row.softDeleted)
    && (row.fields.integration.Some? ==> row.fields.integration.value in db.integrations.Values)
    && (row.fields.policy.Some? ==> row.fields.policy.value in db.policies.Values)
    && (forall other :: other in row.mutex ==> other in db.actions && other != id)
  }

  /** What the tables' constraints guarantee. */
  ghost predicate WellFormed(db: Db) {
    UniqueNames(db.actions) && Injective(db.integrations) && Injective(db.policies)
    && forall id :: id in db.actions ==> RowOk(db, id)
  }

  ghost function FindAction(actions: map<int, Row>, name: string): Option<int> {
    if exists id :: id in actions && actions[id].name == name
    then var id :| id in actions && actions[id].name == name; Some(id)
    else None
  }

  // ---------- the document ----------

  datatype MutexSpec = MutexSpec(incompatibleWith: Field<string>, sameTarget: Field<bool>, description: Field<string>)

  datatype Document = Document(
    name: string, engine: Field<string>, platform: Field<string>, status: Field<string>, itemType: Field<string>,
    requiresTarget: Field<bool>, description: Field<string>, category: Field<string>, impactLevel: Field<string>,
    documentation: Field<string>, integrationRef: Field<string>, policyRef: Field<string>,
    tags: seq<string>, mutex: seq<MutexSpec>,
    parametersSchema: Field<Json>, steps: Field<seq<Step>>, impactRules: Field<Json>,
    notificationConfig: Field<Json>, remediationRules: Field<Json>)

  datatype Mode = Additive | Full

  datatype Error = MissingName | MissingEngine | MissingPlatform | IntegrationNotFound | PolicyNotFound
    | InvalidWorkflowSteps | MissingMutexTarget | MutexActionNotFound | ConstraintViolated

  datatype Outcome = Imported(id: int, created: nat, updated: nat, untouched: nat) | Rejected(error: Error)

  datatype Result<T> = Ok(value: T) | Err(error: Error)

  /** spec.get(key) or "" */
  function OrEmpty(f: Field<string>): string {
    if f.Is? then f.value else ""
  }

  /** spec.get(key) or None */
  function OrNone(f: Field<string>): Option<string> {
    if f.Is? && f.value != "" then Some(f.value) else None
  }

  function ItemType(f: Field<string>): string {
    var n := Normalized(if OrEmpty(f) == "" then "action" else f.value);
    if n == "" then "action" else n
  }

  function Reference(ref: Field<string>, names: map<string, int>, error: Error): Result<Option<int>> {
    var name := OrEmpty(ref);
    if name == "" then Ok(None)
    else if name in names then Ok(Some(names[name]))
    else Err(error)
  }

  /** The fields a document sets, retry defaults written into the steps of a workflow. */
  ghost function FieldsOf(db: Db, doc: Document, registry: set<string>): Result<Fields> {
    var engine, platform := Strip(OrEmpty(doc.engine)), Strip(OrEmpty(doc.platform));
    var integration := Reference(doc.integrationRef, db.integrations, IntegrationNotFound);
    var policy := Reference(doc.policyRef, db.policies, PolicyNotFound);
    var isWorkflow := ItemType(doc.itemType) == "workflow";
    if Blank(doc.name) then Err(MissingName)
    else if engine == "" then Err(MissingEngine)
    else if platform == "" then Err(MissingPlatform)
    else if integration.Err? then Err(integration.error)
    else if policy.Err? then Err(policy.error)
    else if doc.steps.Is? && isWorkflow
      && !Validator.Accepted(Validator.AllWithDefaults(doc.steps.value), None, registry)
    then Err(InvalidWorkflowSteps)
    else if doc.status.Null? || doc.requiresTarget.Null? then Err(ConstraintViolated)
    else Ok(Fields(
      engine, platform, if doc.status.Is? then doc.status.value else "draft", ItemType(doc.itemType),
      doc.requiresTarget.Missing? || doc.requiresTarget.value,
      OrNone(doc.description), OrNone(doc.category), OrNone(doc.impactLevel), OrNone(doc.documentation),
      integration.value, policy.value, doc.parametersSchema.ToOption(),
      if doc.steps.Is? && isWorkflow then Some(Validator.AllWithDefaults(doc.steps.value)) else doc.steps.ToOption(),
      doc.impactRules.ToOption(), doc.notificationConfig.ToOption(), doc.remediationRules.ToOption()))
  }

  // ---------- tags ----------

  /** The normalised names a document asks for. */
  function Targets(names: seq<string>): set<string> {
    set n | n in names && Strip(n) != "" :: Normalized(n)
  }

  function Norms(tags: set<string>): set<string> {
    set x | x in tags :: Normalized(x)
  }

  /** One tag for each wanted name: an existing one that differs in case only, or else a new one. */
  ghost predicate TagsFor(tagNames: set<string>, wanted: set<string>, added: set<string>) {
    && (forall x :: x in added ==> Lower(x) in wanted && (x in tagNames || NewTag(tagNames, x)))
    && (forall t :: t in wanted ==> exists x :: x in added && Lower(x) == t)
    && (forall x, y :: x in added && y in added && Lower(x) == Lower(y) ==> x == y)
  }

  ghost predicate NewTag(tagNames: set<string>, x: string) {
    x == Lower(x) && forall y :: y in tagNames ==> Lower(y) != x
  }

  function Orphans(tags: set<string>, targets: set<string>): set<string> {
    set x | x in tags && Lower(x) in Norms(tags) - targets
  }

  function SyncedTags(tags: set<string>, targets: set<string>, mode: Mode, added: set<string>): set<string> {
    (if mode.Full? then tags - Orphans(tags, targets) else tags) + added
  }

  // ---------- mutex rules ----------

  /** The last specification for each action named. */
  ghost function Resolved(actions: map<int, Row>, specs: seq<MutexSpec>): Result<map<int, MutexSpec>> {
    if specs == [] then Ok(map[]) else
      var n := |specs| - 1;
      var before := Resolved(actions, specs[..n]);
      var name := Strip(OrEmpty(specs[n].incompatibleWith));
      if before.Err? then before
      else if name == "" then Err(MissingMutexTarget)
      else if FindAction(actions, name).None? then Err(MutexActionNotFound)
      else Ok(before.value[FindAction(actions, name).value := specs[n]])
  }

  function RuleOf(spec: MutexSpec): Rule {
    Rule(spec.sameTarget.Is? && spec.sameTarget.value, OrNone(spec.description))
  }

  function Rules(targets: map<int, MutexSpec>): map<int, Rule> {
    map k | k in targets :: RuleOf(targets[k])
  }

  function SyncedMutex(current: map<int, Rule>, targets: map<int, MutexSpec>, mode: Mode): map<int, Rule> {
    if mode.Full? then Rules(targets) else current + Rules(targets)
  }

  /** Columns that may not be null, and no rule of an action with itself. */
  predicate RulesStorable(id: int, targets: map<int, MutexSpec>) {
    id !in targets && forall k :: k in targets ==> !targets[k].sameTarget.Null?
  }

  // ---------- the import ----------

  /** The action's row before its tags and rules: created, or with its fields changed. */
  ghost function WithFields(db: Db, name: string, f: Fields, newId: int): (int, Row) {
    var found := FindAction(db.actions, name);
    if found.Some? then (found.value, db.actions[found.value].(fields := f))
    else (newId, Row(name, f, false, {}, map[]))
  }

  /** The import once the fields f of row id are known. */
  ghost function Finished(db: Db, doc: Document, mode: Mode, id: int, row: Row, added: set<string>): (Db, Outcome) {
    var targets := Resolved(db.actions[id := row], doc.mutex);
    if targets.Err? then (db, Rejected(targets.error)) else
    if !RulesStorable(id, targets.value) then (db, Rejected(ConstraintViolated)) else
    var row' := row.(tags := SyncedTags(row.tags, Targets(doc.tags), mode, added),
                     mutex := SyncedMutex(row.mutex, targets.value, mode));
    var outcome := if id !in db.actions then Imported(id, 1, 0, 0)
                   else if db.actions[id].fields != row.fields then Imported(id, 0, 1, 0) else Imported(id, 0, 0, 1);
    (db.(actions := db.actions[id := row'], tagNames := db.tagNames + added), outcome)
  }

  /** The database after an import and what is reported; a rejected import rolls everything back. */
  ghost function Applied(db: Db, doc: Document, mode: Mode, newId: int, registry: set<string>,
                         added: set<string>): (Db, Outcome) {
    var fields := FieldsOf(db, doc, registry);
    if fields.Err? then (db, Rejected(fields.error)) else
    var (id, row) := WithFields(db, Strip(doc.name), fields.value, newId);
    if !Storable(row.fields, row.softDeleted) then (db, Rejected(ConstraintViolated)) else
    Finished(db, doc, mode, id, row, added)
  }

  /** The tags an import has to add. */
  ghost function Wanted(db: Db, doc: Document): set<string> {
    var found := FindAction(db.actions, Strip(doc.name));
    Targets(doc.tags) - if found.Some? then Norms(db.actions[found.value].tags) else {}
  }

  /** An import may go this way: tags are chosen among those that match. */
  ghost predicate Imports(db: Db, doc: Document, mode: Mode, newId: int, registry: set<string>, db': Db,
                          outcome: Outcome) {
    exists added: set<string> :: TagsFor(db.tagNames, Wanted(db, doc), added)
      && (db', outcome) == Applied(db, doc, mode, newId, registry, added)
  }

  // ---------- lookups by name ----------

  lemma FindUnique(actions: map<int, Row>, id: int)
    requires UniqueNames(actions) && id in actions
    ensures FindAction(actions, actions[id].name) == Some(id)
  {
  }

  ghost predicate SameNames(a: map<int, Row>, b: map<int, Row>) {
    a.Keys == b.Keys && forall k :: k in a ==> a[k].name == b[k].name
  }

  lemma FindByNames(a: map<int, Row>, b: map<int, Row>, name: string)
    requires UniqueNames(a) && UniqueNames(b) && SameNames(a, b)
    ensures FindAction(a, name) == FindAction(b, name)
  {
    if id :| id in a && a[id].name == name {
      FindUnique(a, id);
      FindUnique(b, id);
    }
  }

  lemma {:induction false} ResolvedByNames(a: map<int, Row>, b: map<int, Row>, specs: seq<MutexSpec>)
    requires UniqueNames(a) && UniqueNames(b) && SameNames(a, b)
    ensures Resolved(a, specs) == Resolved(b, specs)
  {
    if specs != [] {
      hide FindAction;
      var n := |specs| - 1;
      ResolvedByNames(a, b, specs[..n]);
      FindByNames(a, b, Strip(OrEmpty(specs[n].incompatibleWith)));
    }
  }

  /** Inserting or changing one row under a name that is its own keeps names unique. */
  lemma WithFieldsUnique(db: Db, name: string, f: Fields, newId: int)
    requires UniqueNames(db.actions) && newId !in db.actions
    ensures var (id, row) := WithFields(db, name, f, newId);
            && row.name == name && UniqueNames(db.actions[id := row])
            && (id in db.actions ==> row == db.actions[id].(fields := f))
  {
  }

  // ---------- tags ----------

  lemma AddedTagNorm(x: string, names: seq<string>)
    requires Lower(x) in Targets(names)
    ensures Normalized(x) == Lower(x)
  {
    hide Strip, Lower;
    var n :| n in names && Normalized(n) == Lower(x);
    NormalizedIdempotent(n);
    StripOfLower(x);
  }

  lemma AddedNorms(names: seq<string>, have: set<string>, tagNames: set<string>, added: set<string>)
    requires TagsFor(tagNames, Targets(names) - have, added)
    ensures Norms(added) == Targets(names) - have
    ensures forall x :: x in added ==> Normalized(x) == Lower(x)
  {
    hide Normalized, Lower, Targets;
    forall x | x in added
      ensures Normalized(x) == Lower(x)
    {
      AddedTagNorm(x, names);
    }
  }

  /** Every attached tag the document does not ask for is stored without surrounding blanks. */
  ghost predicate Removable(tags: set<string>, targets: set<string>) {
    forall x :: x in tags && Normalized(x) !in targets ==> Lower(x) == Normalized(x)
  }

  /** An untrimmed name in lower case is nobody's normal form. */
  lemma LowerIsNorm(tags: set<string>, x: string)
    requires Lower(x) in Norms(tags)
    ensures Lower(x) == Normalized(x)
  {
    hide Strip, Lower;
    var y :| y in tags && Normalized(y) == Lower(x);
    NormalizedIdempotent(y);
    StripOfLower(x);
  }

  lemma NormsOfUnion(a: set<string>, b: set<string>)
    ensures Norms(a + b) == Norms(a) + Norms(b)
  {
    hide Normalized;
  }

  lemma NormsKept(tags: set<string>, targets: set<string>)
    ensures Norms(tags - Orphans(tags, targets)) <= targets <==> Removable(tags, targets)
    ensures Norms(tags) * targets <= Norms(tags - Orphans(tags, targets))
  {
    hide Normalized, Lower;
    forall x | x in tags
      ensures x in Orphans(tags, targets) <==> Lower(x) == Normalized(x) && Normalized(x) !in targets
    {
      if Lower(x) in Norms(tags) {
        LowerIsNorm(tags, x);
      }
    }
    var kept := tags - Orphans(tags, targets);
    assert forall x :: x in kept ==> Normalized(x) in Norms(kept);
    assert forall x :: x in tags && Normalized(x) in targets ==> x in kept;
  }

  /** Additive imports leave the union of the old tags and the document's; full imports leave exactly
      the document's when, and only when, every other tag is stored trimmed. */
  lemma TagsAfterImport(names: seq<string>, tags: set<string>, tagNames: set<string>, added: set<string>)
    requires TagsFor(tagNames, Targets(names) - Norms(tags), added)
    ensures Norms(SyncedTags(tags, Targets(names), Additive, added)) == Norms(tags) + Targets(names)
    ensures Norms(SyncedTags(tags, Targets(names), Full, added)) == Targets(names) <==> Removable(tags, Targets(names))
  {
    hide Norms, Targets, Orphans, TagsFor, Removable;
    var targets := Targets(names);
    AddedNorms(names, Norms(tags), tagNames, added);
    NormsOfUnion(tags, added);
    NormsOfUnion(tags - Orphans(tags, targets), added);
    NormsKept(tags, targets);
  }

  /** After a synchronisation every target is there, and another one removes nothing. */
  lemma TagsSettle(names: seq<string>, tags: set<string>, tagNames: set<string>, added: set<string>, mode: Mode)
    requires TagsFor(tagNames, Targets(names) - Norms(tags), added)
    ensures var after := SyncedTags(tags, Targets(names), mode, added);
            Targets(names) <= Norms(after) && SyncedTags(after, Targets(names), mode, {}) == after
  {
    hide Normalized, Lower, Targets;
    var targets := Targets(names);
    var after := SyncedTags(tags, targets, mode, added);
    AddedNorms(names, Norms(tags), tagNames, added);
    NormsOfUnion(tags, added);
    NormsOfUnion(tags - Orphans(tags, targets), added);
    NormsKept(tags, targets);
    if mode.Full? {
      forall x | x in after
        ensures x !in Orphans(after, targets)
      {
        if x in Orphans(after, targets) {
          LowerIsNorm(after, x);
          assert false;
        }
      }
    }
  }

  // ---------- importing twice ----------

  /** A specification names an action. */
  ghost predicate SpecFor(actions: map<int, Row>, spec: MutexSpec, k: int) {
    Strip(OrEmpty(spec.incompatibleWith)) != "" && FindAction(actions, Strip(OrEmpty(spec.incompatibleWith))) == Some(k)
  }

  ghost predicate Covered(actions: map<int, Row>, spec: MutexSpec, targets: map<int, MutexSpec>) {
    exists k :: k in targets && SpecFor(actions, spec, k)
  }

  /** The targets are the actions the specifications name, each with one that names it. */
  ghost predicate KeysOf(actions: map<int, Row>, specs: seq<MutexSpec>, m: map<int, MutexSpec>) {
    && (forall k :: k in m ==> k in actions && m[k] in specs && SpecFor(actions, m[k], k))
    && (forall s :: s in specs ==> Covered(actions, s, m))
  }

  lemma {:induction false} ResolvedKeys(actions: map<int, Row>, specs: seq<MutexSpec>)
    requires Resolved(actions, specs).Ok?
    ensures KeysOf(actions, specs, Resolved(actions, specs).value)
  {
    hide FindAction, Strip, OrEmpty;
    if specs != [] {
      var n := |specs| - 1;
      ResolvedKeys(actions, specs[..n]);
      var before := Resolved(actions, specs[..n]).value;
      var name := Strip(OrEmpty(specs[n].incompatibleWith));
      FoundIsThere(actions, name);
      var m := before[FindAction(actions, name).value := specs[n]];
      assert SpecFor(actions, specs[n], FindAction(actions, name).value);
      forall s | s in specs
        ensures Covered(actions, s, m)
      {
        if s in specs[..n] {
          var k :| k in before && SpecFor(actions, s, k);
          assert k in m;
        } else {
          assert s == specs[n];
        }
      }
      assert forall s :: s in specs[..n] ==> s in specs;
    }
  }

  lemma FoundIsThere(actions: map<int, Row>, name: string)
    ensures var found := FindAction(actions, name);
            found.Some? ==> found.value in actions && actions[found.value].name == name
  {
  }

  lemma FieldsByReferences(db: Db, db': Db, doc: Document, registry: set<string>)
    requires db'.integrations == db.integrations && db'.policies == db.policies
    ensures FieldsOf(db', doc, registry) == FieldsOf(db, doc, registry)
  {
    hide Strip, Blank, ItemType, Reference, Validator.AllWithDefaults, Validator.Accepted;
  }

  /** What an accepted import leaves at the row it reports. */
  lemma ImportedRow(db: Db, doc: Document, mode: Mode, newId: int, registry: set<string>, added: set<string>)
    requires UniqueNames(db.actions) && newId !in db.actions
    requires Applied(db, doc, mode, newId, registry, added).1.Imported?
    ensures var (db', outcome) := Applied(db, doc, mode, newId, registry, added);
            var fields := FieldsOf(db, doc, registry);
            && fields.Ok? && outcome.id in db'.actions
            && var (id, row) := WithFields(db, Strip(doc.name), fields.value, newId);
            && var targets := Resolved(db.actions[id := row], doc.mutex);
            && id == outcome.id && targets.Ok? && RulesStorable(id, targets.value)
            && Storable(fields.value, row.softDeleted)
            && UniqueNames(db'.actions)
            && db'.actions == db.actions[id := row.(tags := SyncedTags(row.tags, Targets(doc.tags), mode, added),
                                                    mutex := SyncedMutex(row.mutex, targets.value, mode))]
            && db'.integrations == db.integrations && db'.policies == db.policies && db'.tagNames == db.tagNames + added
  {
    hide FieldsOf, WithFields, Resolved, Storable, RulesStorable, SyncedTags, SyncedMutex, Targets;
    var f := FieldsOf(db, doc, registry).value;
    var (id, row) := WithFields(db, Strip(doc.name), f, newId);
    WithFieldsUnique(db, Strip(doc.name), f, newId);
    WithFieldsStored(db, Strip(doc.name), f, newId);
    var db' := Applied(db, doc, mode, newId, registry, added).0;
    SameNameUnique(db.actions, id, row, db'.actions[id]);
  }

  lemma SameNameUnique(actions: map<int, Row>, id: int, row: Row, row': Row)
    requires UniqueNames(actions[id := row]) && row'.name == row.name
    ensures UniqueNames(actions[id := row'])
  {
    var a, b := actions[id := row], actions[id := row'];
    assert forall k :: k in b ==> k in a && b[k].name == a[k].name;
  }

  /** The action already is what the document says. */
  ghost predicate UpToDate(db: Db, doc: Document, mode: Mode, id: int, registry: set<string>) {
    && FindAction(db.actions, Strip(doc.name)) == Some(id) && id in db.actions
    && FieldsOf(db, doc, registry) == Ok(db.actions[id].fields)
    && Storable(db.actions[id].fields, db.actions[id].softDeleted)
    && TagsDone(db.actions[id].tags, doc, mode) && MutexDone(db, doc, mode, id)
  }

  ghost predicate TagsDone(tags: set<string>, doc: Document, mode: Mode) {
    Targets(doc.tags) <= Norms(tags) && SyncedTags(tags, Targets(doc.tags), mode, {}) == tags
  }

  ghost predicate MutexDone(db: Db, doc: Document, mode: Mode, id: int)
    requires id in db.actions
  {
    var targets := Resolved(db.actions, doc.mutex);
    targets.Ok? && RulesStorable(id, targets.value)
    && SyncedMutex(db.actions[id].mutex, targets.value, mode) == db.actions[id].mutex
  }

  /** Then an import changes nothing, and says so. */
  lemma NothingToDo(db: Db, doc: Document, mode: Mode, newId: int, registry: set<string>, id: int, db': Db,
                    outcome: Outcome)
    requires UpToDate(db, doc, mode, id, registry) && Imports(db, doc, mode, newId, registry, db', outcome)
    ensures db' == db && outcome == Imported(id, 0, 0, 1)
  {
    hide FieldsOf, Resolved, Storable, RulesStorable, SyncedTags, SyncedMutex, Targets, FindAction, Finished,
         Strip, TagsFor, Wanted, Norms;
    var added :| TagsFor(db.tagNames, Wanted(db, doc), added)
      && (db', outcome) == Applied(db, doc, mode, newId, registry, added);
    StoredTags(db, doc, id);
    NoneAdded(db.tagNames, Wanted(db, doc), added);
    var row := db.actions[id];
    assert row.(fields := row.fields) == row;
    FinishedAlready(db, doc, mode, id, Resolved(db.actions, doc.mutex).value);
  }

  lemma NoneAdded(tagNames: set<string>, wanted: set<string>, added: set<string>)
    requires TagsFor(tagNames, wanted, added) && wanted == {}
    ensures added == {}
  {
  }

  lemma FinishedAlready(db: Db, doc: Document, mode: Mode, id: int, targets: map<int, MutexSpec>)
    requires id in db.actions && Resolved(db.actions, doc.mutex) == Ok(targets) && RulesStorable(id, targets)
    requires SyncedTags(db.actions[id].tags, Targets(doc.tags), mode, {}) == db.actions[id].tags
    requires SyncedMutex(db.actions[id].mutex, targets, mode) == db.actions[id].mutex
    ensures Finished(db, doc, mode, id, db.actions[id], {}) == (db, Imported(id, 0, 0, 1))
  {
    hide Resolved, RulesStorable, SyncedTags, SyncedMutex, Targets;
    var row := db.actions[id];
    assert db.actions[id := row] == db.actions && db.tagNames + {} == db.tagNames;
    assert row.(tags := row.tags, mutex := row.mutex) == row;
  }

  /** The second import of a document finds everything as it wants it: it reports one action untouched,
      and no field, tag or rule of any action changes. */
  lemma ImportTwice(db: Db, doc: Document, mode: Mode, registry: set<string>,
                    newId: int, db1: Db, first: Outcome, newId': int, db2: Db, second: Outcome)
    requires UniqueNames(db.actions) && newId !in db.actions && newId' !in db1.actions
    requires Imports(db, doc, mode, newId, registry, db1, first) && first.Imported?
    requires Imports(db1, doc, mode, newId', registry, db2, second)
    ensures db2 == db1 && second == Imported(first.id, 0, 0, 1)
  {
    hide Applied, UpToDate, UniqueNames, TagsFor, Wanted;
    var added :| TagsFor(db.tagNames, Wanted(db, doc), added)
      && (db1, first) == Applied(db, doc, mode, newId, registry, added);
    ImportLeavesUpToDate(db, doc, mode, newId, registry, added);
    NothingToDo(db1, doc, mode, newId', registry, first.id, db2, second);
  }

  lemma ImportLeavesUpToDate(db: Db, doc: Document, mode: Mode, newId: int, registry: set<string>, added: set<string>)
    requires UniqueNames(db.actions) && newId !in db.actions && TagsFor(db.tagNames, Wanted(db, doc), added)
    requires Applied(db, doc, mode, newId, registry, added).1.Imported?
    ensures var (db1, first) := Applied(db, doc, mode, newId, registry, added);
            UpToDate(db1, doc, mode, first.id, registry)
  {
    hide Applied, WithFields, FieldsOf, Resolved, Storable, RulesStorable, SyncedTags, SyncedMutex, Targets, TagsFor,
         Norms, FindAction, Wanted, UniqueNames, Strip, TagsDone, MutexDone;
    ImportedRow(db, doc, mode, newId, registry, added);
    var db1 := Applied(db, doc, mode, newId, registry, added).0;
    var f := FieldsOf(db, doc, registry).value;
    var (id, row) := WithFields(db, Strip(doc.name), f, newId);
    WithFieldsStored(db, Strip(doc.name), f, newId);
    WithFieldsUnique(db, Strip(doc.name), f, newId);
    FieldsByReferences(db, db1, doc, registry);
    FindUnique(db1.actions, id);
    FirstTags(db, doc, f, newId);
    LeavesTagsDone(doc, row.tags, db.tagNames, added, mode);
    LeavesMutexDone(db, db1, doc, id, row, mode);
  }

  lemma LeavesTagsDone(doc: Document, tags: set<string>, tagNames: set<string>, added: set<string>, mode: Mode)
    requires TagsFor(tagNames, Targets(doc.tags) - Norms(tags), added)
    ensures TagsDone(SyncedTags(tags, Targets(doc.tags), mode, added), doc, mode)
  {
    hide SyncedTags, Targets, TagsFor, Norms;
    TagsSettle(doc.tags, tags, tagNames, added, mode);
  }

  lemma LeavesMutexDone(db: Db, db1: Db, doc: Document, id: int, row: Row, mode: Mode)
    requires UniqueNames(db.actions[id := row]) && UniqueNames(db1.actions)
    requires Resolved(db.actions[id := row], doc.mutex).Ok?
    requires RulesStorable(id, Resolved(db.actions[id := row], doc.mutex).value)
    requires id in db1.actions && db1.actions == db.actions[id := db1.actions[id]] && db1.actions[id].name == row.name
    requires db1.actions[id].mutex == SyncedMutex(row.mutex, Resolved(db.actions[id := row], doc.mutex).value, mode)
    ensures MutexDone(db1, doc, mode, id)
  {
    hide UniqueNames, Resolved, RulesStorable, SyncedMutex;
    ResolvedByNames(db.actions[id := row], db1.actions, doc.mutex);
    MutexSettles(row.mutex, Resolved(db1.actions, doc.mutex).value, mode);
  }

  lemma WithFieldsStored(db: Db, name: string, f: Fields, newId: int)
    ensures WithFields(db, name, f, newId).1.fields == f
  {
  }

  lemma StoredTags(db: Db, doc: Document, id: int)
    requires FindAction(db.actions, Strip(doc.name)) == Some(id)
    ensures id in db.actions && Wanted(db, doc) == Targets(doc.tags) - Norms(db.actions[id].tags)
  {
  }

  lemma FirstTags(db: Db, doc: Document, f: Fields, newId: int)
    ensures Wanted(db, doc) == Targets(doc.tags) - Norms(WithFields(db, Strip(doc.name), f, newId).1.tags)
  {
    hide Strip, FindAction, Normalized, Targets;
    assert Norms({}) == {};
  }

  lemma MutexSettles(current: map<int, Rule>, targets: map<int, MutexSpec>, mode: Mode)
    ensures SyncedMutex(SyncedMutex(current, targets, mode), targets, mode) == SyncedMutex(current, targets, mode)
    ensures SyncedMutex(current, targets, mode).Keys == if mode.Full? then targets.Keys else current.Keys + targets.Keys
  {
  }

  lemma FieldsRefer(db: Db, doc: Document, registry: set<string>)
    requires FieldsOf(db, doc, registry).Ok?
    ensures var f := FieldsOf(db, doc, registry).value;
            && (f.integration.Some? ==> f.integration.value in db.integrations.Values)
            && (f.policy.Some? ==> f.policy.value in db.policies.Values)
  {
    hide Strip, Blank, ItemType, Validator.AllWithDefaults, Validator.Accepted;
  }

  lemma OthersOk(db: Db, db': Db, id: int, k: int)
    requires k in db.actions && k != id && RowOk(db, k)
    requires id in db'.actions && db'.actions == db.actions[id := db'.actions[id]]
    requires db'.integrations == db.integrations && db'.policies == db.policies
    ensures RowOk(db', k)
  {
  }

  /** Imports keep what the tables guarantee. */
  lemma ImportKeepsWellFormed(db: Db, doc: Document, mode: Mode, newId: int, registry: set<string>, db': Db,
                              outcome: Outcome)
    requires WellFormed(db) && newId !in db.actions
    requires Imports(db, doc, mode, newId, registry, db', outcome)
    ensures WellFormed(db') && (outcome.Rejected? ==> db' == db)
  {
    hide FieldsOf, Resolved, Storable, SyncedTags, Targets, TagsFor, FindAction, Strip, Wanted, Injective,
         UniqueNames, RowOk;
    var added :| TagsFor(db.tagNames, Wanted(db, doc), added)
      && (db', outcome) == Applied(db, doc, mode, newId, registry, added);
    if outcome.Imported? {
      hide Applied;
      ImportedRow(db, doc, mode, newId, registry, added);
      var f := FieldsOf(db, doc, registry).value;
      var (id, row) := WithFields(db, Strip(doc.name), f, newId);
      var targets := Resolved(db.actions[id := row], doc.mutex).value;
      FoundIsThere(db.actions, Strip(doc.name));
      FieldsRefer(db, doc, registry);
      ResolvedKeys(db.actions[id := row], doc.mutex);
      NewRowOk(db, db', id, row, targets, mode);
      forall k | k in db'.actions
        ensures RowOk(db', k)
      {
        if k != id {
          OthersOk(db, db', id, k);
        }
      }
    }
  }

  lemma NewRowOk(db: Db, db': Db, id: int, row: Row, targets: map<int, MutexSpec>, mode: Mode)
    requires id in db'.actions && db'.integrations == db.integrations && db'.policies == db.policies
    requires db.actions.Keys <= db'.actions.Keys
    requires db'.actions[id].fields == row.fields && db'.actions[id].softDeleted == row.softDeleted
    requires db'.actions[id].mutex == SyncedMutex(row.mutex, targets, mode)
    requires if id in db.actions then RowOk(db, id) && row.mutex == db.actions[id].mutex else row.mutex == map[]
    requires Storable(row.fields, row.softDeleted) && RulesStorable(id, targets)
    requires forall k :: k in targets ==> k in db'.actions
    requires row.fields.integration.Some? ==> row.fields.integration.value in db.integrations.Values
    requires row.fields.policy.Some? ==> row.fields.policy.value in db.policies.Values
    ensures RowOk(db', id)
  {
  }

  // ---------- exporting and importing back ----------

  function Present<T>(v: Option<T>): Field<T> {
    if v.Some? then Is(v.value) else Missing
  }

  /** A value is shown as it is, and left out when it is null. */
  predicate Shows<T(==)>(field: Field<T>, v: Option<T>) {
    match field
    case Is(value) => v == Some(value)
    case Missing => v.None?
    case Null => false
  }

  /** The reference an export writes for a foreign key. */
  predicate Refers(ref: Field<string>, key: Option<int>, names: map<string, int>) {
    if key.None? then ref == Missing else ref.Is? && ref.value in names && names[ref.value] == key.value
  }

  function SpecOf(db: Db, other: int, rule: Rule): MutexSpec
    requires other in db.actions
  {
    MutexSpec(Is(db.actions[other].name), Is(rule.sameTarget), Present(rule.description))
  }

  ghost predicate ExportsFields(db: Db, row: Row, doc: Document) {
    var f := row.fields;
    && doc.name == row.name && doc.engine == Is(f.engine) && doc.platform == Is(f.platform)
    && doc.status == Is(f.status) && doc.itemType == Is(f.itemType) && doc.requiresTarget == Is(f.requiresTarget)
    && Shows(doc.description, f.description) && Shows(doc.category, f.category)
    && Shows(doc.impactLevel, f.impactLevel) && Shows(doc.documentation, f.documentation)
    && Refers(doc.integrationRef, f.integration, db.integrations) && Refers(doc.policyRef, f.policy, db.policies)
    && Shows(doc.parametersSchema, f.parametersSchema) && Shows(doc.steps, f.steps)
    && Shows(doc.impactRules, f.impactRules) && Shows(doc.notificationConfig, f.notificationConfig)
    && Shows(doc.remediationRules, f.remediationRules)
  }

  ghost predicate ExportsTags(tags: set<string>, names: seq<string>) {
    forall n :: n in names <==> n in Norms(tags) && n != ""
  }

  ghost predicate ExportsMutex(db: Db, mutex: map<int, Rule>, specs: seq<MutexSpec>) {
    && (forall k :: k in mutex ==> k in db.actions && SpecOf(db, k, mutex[k]) in specs)
    && (forall s :: s in specs ==> exists k :: ForRule(db, mutex, s, k))
  }

  ghost predicate ForRule(db: Db, mutex: map<int, Rule>, s: MutexSpec, k: int) {
    k in mutex && k in db.actions && s == SpecOf(db, k, mutex[k])
  }

  ghost predicate IsExport(db: Db, id: int, doc: Document)
    requires id in db.actions
  {
    var row := db.actions[id];
    ExportsFields(db, row, doc) && ExportsTags(row.tags, doc.tags) && ExportsMutex(db, row.mutex, doc.mutex)
  }

  predicate Trimmed(name: string) {
    name != "" && Strip(name) == name
  }

  /** The named references are not empty. */
  predicate RefTidy(key: Option<int>, names: map<string, int>) {
    key.Some? ==> forall n :: n in names && names[n] == key.value ==> n != ""
  }

  ghost predicate FieldsTidy(db: Db, row: Row, registry: set<string>) {
    var f := row.fields;
    && Trimmed(row.name) && Trimmed(f.engine) && Trimmed(f.platform)
    && f.description != Some("") && f.category != Some("") && f.documentation != Some("")
    && RefTidy(f.integration, db.integrations) && RefTidy(f.policy, db.policies)
    && (f.itemType == "workflow" && f.steps.Some? ==>
          Validator.AllWithDefaults(f.steps.value) == f.steps.value
            && Validator.Accepted(f.steps.value, None, registry))
  }

  ghost predicate MutexTidy(db: Db, mutex: map<int, Rule>) {
    forall k :: k in mutex && k in db.actions ==> Trimmed(db.actions[k].name) && mutex[k].description != Some("")
  }

  /** No empty strings, no surrounding blanks in names, steps that validation accepts as they are. */
  ghost predicate Tidy(db: Db, id: int, registry: set<string>)
    requires id in db.actions
  {
    var row := db.actions[id];
    FieldsTidy(db, row, registry) && "" !in row.tags && MutexTidy(db, row.mutex)
  }

  lemma NormalizedKeeps(s: string)
    requires s != "" && !IsSpace(s[0]) && !IsSpace(s[|s| - 1])
    requires forall i :: 0 <= i < |s| ==> !('A' <= s[i] <= 'Z')
    ensures Normalized(s) == s
  {
    hide Strip;
    StripKeeps(s);
    assert Lower(s) == s;
  }

  lemma ItemTypeKept(s: string)
    requires s in {"action", "workflow"}
    ensures ItemType(Is(s)) == s
  {
    NormalizedKeeps(s);
    hide Normalized;
  }

  lemma ReferenceBack(ref: Field<string>, key: Option<int>, names: map<string, int>, error: Error)
    requires Refers(ref, key, names) && Injective(names)
    ensures Reference(ref, names, error) == Ok(key) <==> RefTidy(key, names)
  {
  }

  /** The fields come back as they were exactly when they are tidy. */
  lemma FieldsBackIff(db: Db, id: int, doc: Document, registry: set<string>)
    requires WellFormed(db) && id in db.actions && ExportsFields(db, db.actions[id], doc)
    ensures FieldsOf(db, doc, registry) == Ok(db.actions[id].fields) && Trimmed(db.actions[id].name)
      <==> FieldsTidy(db, db.actions[id], registry)
  {
    hide Strip, Validator.AllWithDefaults, Validator.Accepted, Injective, Reference, Refers, RefTidy, ItemType,
         Blank, UniqueNames;
    var row := db.actions[id];
    assert RowOk(db, id);
    ItemTypeKept(row.fields.itemType);
    ReferenceBack(doc.integrationRef, row.fields.integration, db.integrations, IntegrationNotFound);
    ReferenceBack(doc.policyRef, row.fields.policy, db.policies, PolicyNotFound);
    BlankIffStripsToNothing(row.name);
  }

  lemma TagsBack(tags: set<string>, names: seq<string>)
    requires ExportsTags(tags, names)
    ensures Targets(names) == Norms(tags) - {""}
    ensures Orphans(tags, Targets(names)) == tags * {""}
  {
    hide Strip, Lower, Normalized;
    forall n | n in names
      ensures Strip(n) == n && Normalized(n) == n && n != ""
    {
      var x :| x in tags && Normalized(x) == n;
      NormalizedIdempotent(x);
    }
    assert forall n :: n in Norms(tags) && n != "" ==> n in names;
    EmptyNorm();
    forall x | x in tags
      ensures x in Orphans(tags, Targets(names)) <==> x == ""
    {
      assert x == "" ==> Normalized(x) in Norms(tags);
    }
  }

  lemma EmptyNorm()
    ensures Normalized("") == "" && forall x :: Lower(x) == "" <==> x == ""
  {
  }

  ghost predicate NamesOne(actions: map<int, Row>, s: MutexSpec) {
    exists k :: SpecFor(actions, s, k)
  }

  lemma {:induction false} ResolvedOk(actions: map<int, Row>, specs: seq<MutexSpec>)
    requires forall s :: s in specs ==> NamesOne(actions, s)
    ensures Resolved(actions, specs).Ok?
  {
    hide FindAction, Strip, OrEmpty;
    if specs != [] {
      hide NamesOne;
      var n := |specs| - 1;
      assert forall s :: s in specs[..n] ==> s in specs;
      ResolvedOk(actions, specs[..n]);
      NamedIsFound(actions, specs[n]);
    }
  }

  lemma NamedIsFound(actions: map<int, Row>, s: MutexSpec)
    requires NamesOne(actions, s)
    ensures Strip(OrEmpty(s.incompatibleWith)) != "" && FindAction(actions, Strip(OrEmpty(s.incompatibleWith))).Some?
  {
    hide FindAction, Strip, OrEmpty;
  }

  /** The exported specification of a rule names its action when that action's name is trimmed. */
  lemma SpecNames(db: Db, k: int, rule: Rule, j: int)
    requires UniqueNames(db.actions) && k in db.actions && j in db.actions && Trimmed(db.actions[k].name)
    ensures SpecFor(db.actions, SpecOf(db, k, rule), j) <==> j == k
  {
    hide Strip;
    FindUnique(db.actions, k);
  }

  lemma RuleBack(db: Db, k: int, rule: Rule)
    requires k in db.actions
    ensures RuleOf(SpecOf(db, k, rule)) == rule <==> rule.description != Some("")
  {
  }

  /** A target found by an exported specification is the rule that was exported. */
  lemma TargetIsRule(db: Db, mutex: map<int, Rule>, s: MutexSpec, j: int, k: int)
    requires UniqueNames(db.actions) && ForRule(db, mutex, s, j) && Trimmed(db.actions[j].name)
    requires k in db.actions && SpecFor(db.actions, s, k) && mutex[j].description != Some("")
    ensures k == j && RuleOf(s) == mutex[k] && !s.sameTarget.Null?
  {
    hide FindAction, Strip, SpecOf, Trimmed, UniqueNames;
    SpecNames(db, j, mutex[j], k);
    RuleBack(db, j, mutex[j]);
    SpecTarget(db, j, mutex[j]);
  }

  lemma MutexResolves(db: Db, mutex: map<int, Rule>, specs: seq<MutexSpec>)
    requires UniqueNames(db.actions) && ExportsMutex(db, mutex, specs) && MutexTidy(db, mutex)
    ensures Resolved(db.actions, specs).Ok?
  {
    hide FindAction, Strip, SpecFor, SpecOf, Trimmed, UniqueNames;
    forall s | s in specs
      ensures NamesOne(db.actions, s)
    {
      var k :| ForRule(db, mutex, s, k);
      SpecNames(db, k, mutex[k], k);
    }
    ResolvedOk(db.actions, specs);
  }

  lemma TargetsAreRules(db: Db, mutex: map<int, Rule>, specs: seq<MutexSpec>, m: map<int, MutexSpec>, k: int)
    requires UniqueNames(db.actions) && ExportsMutex(db, mutex, specs) && MutexTidy(db, mutex)
    requires KeysOf(db.actions, specs, m) && k in m
    ensures k in mutex && RuleOf(m[k]) == mutex[k] && !m[k].sameTarget.Null?
  {
    hide RuleOf, SpecFor, Trimmed, UniqueNames, Covered;
    assert m[k] in specs;
    var j :| ForRule(db, mutex, m[k], j);
    TargetIsRule(db, mutex, m[k], j, k);
  }

  lemma RulesAreTargets(db: Db, mutex: map<int, Rule>, specs: seq<MutexSpec>, m: map<int, MutexSpec>, k: int)
    requires UniqueNames(db.actions) && ExportsMutex(db, mutex, specs) && MutexTidy(db, mutex)
    requires KeysOf(db.actions, specs, m) && k in mutex
    ensures k in m
  {
    hide SpecFor, SpecOf, Trimmed, UniqueNames;
    var s := SpecOf(db, k, mutex[k]);
    assert Covered(db.actions, s, m);
    var j :| j in m && SpecFor(db.actions, s, j);
    SpecNames(db, k, mutex[k], j);
  }

  lemma MutexBack(db: Db, id: int, mutex: map<int, Rule>, specs: seq<MutexSpec>)
    requires UniqueNames(db.actions) && id !in mutex && ExportsMutex(db, mutex, specs) && MutexTidy(db, mutex)
    ensures var targets := Resolved(db.actions, specs);
            targets.Ok? && RulesStorable(id, targets.value) && Rules(targets.value) == mutex
  {
    hide RuleOf, UniqueNames, Resolved, ExportsMutex, MutexTidy, KeysOf;
    MutexResolves(db, mutex, specs);
    ResolvedKeys(db.actions, specs);
    var m := Resolved(db.actions, specs).value;
    forall k | k in m
      ensures k in mutex && RuleOf(m[k]) == mutex[k] && !m[k].sameTarget.Null?
    {
      TargetsAreRules(db, mutex, specs, m, k);
    }
    forall k | k in mutex
      ensures k in m
    {
      RulesAreTargets(db, mutex, specs, m, k);
    }
  }

  lemma SpecTarget(db: Db, k: int, rule: Rule)
    requires k in db.actions
    ensures SpecOf(db, k, rule).sameTarget.Is?
  {
  }

  /** Every rule's action is named, after trimming, by some exported specification. */
  lemma MutexNamesTrimmed(db: Db, mutex: map<int, Rule>, specs: seq<MutexSpec>, k: int)
    requires UniqueNames(db.actions) && ExportsMutex(db, mutex, specs)
    requires Resolved(db.actions, specs).Ok? && k in Resolved(db.actions, specs).value
    ensures k in db.actions && Trimmed(db.actions[k].name)
  {
    hide FindAction, Strip;
    ResolvedKeys(db.actions, specs);
    var s := Resolved(db.actions, specs).value[k];
    var name := Strip(OrEmpty(s.incompatibleWith));
    FoundIsThere(db.actions, name);
    StripIdempotent(OrEmpty(s.incompatibleWith));
  }

  lemma RuleTidy(db: Db, mutex: map<int, Rule>, specs: seq<MutexSpec>, m: map<int, MutexSpec>, k: int)
    requires UniqueNames(db.actions) && ExportsMutex(db, mutex, specs)
    requires KeysOf(db.actions, specs, m) && Rules(m) == mutex && k in m
    requires forall j :: j in m ==> j in db.actions && Trimmed(db.actions[j].name)
    ensures mutex[k].description != Some("")
  {
    hide RuleOf, SpecFor, SpecOf, Trimmed, UniqueNames, Covered;
    assert RuleOf(m[k]) == mutex[k] && m[k] in specs;
    var j :| ForRule(db, mutex, m[k], j);
    assert j in m;
    SpecNames(db, j, mutex[j], k);
    RuleBack(db, j, mutex[j]);
  }

  lemma MutexBackOnly(db: Db, mutex: map<int, Rule>, specs: seq<MutexSpec>)
    requires UniqueNames(db.actions) && ExportsMutex(db, mutex, specs)
    requires Resolved(db.actions, specs).Ok? && Rules(Resolved(db.actions, specs).value) == mutex
    ensures MutexTidy(db, mutex)
  {
    hide RuleOf, Trimmed, UniqueNames, Resolved, ExportsMutex, KeysOf;
    var m := Resolved(db.actions, specs).value;
    ResolvedKeys(db.actions, specs);
    forall j | j in m
      ensures j in db.actions && Trimmed(db.actions[j].name)
    {
      MutexNamesTrimmed(db, mutex, specs, j);
    }
    forall k | k in m
      ensures mutex[k].description != Some("")
    {
      RuleTidy(db, mutex, specs, m, k);
    }
  }

  ghost predicate NoOp(db: Db, db': Db, id: int, outcome: Outcome) {
    db' == db && outcome == Imported(id, 0, 0, 1)
  }

  lemma NothingWanted(db: Db, id: int, doc: Document, added: set<string>)
    requires UniqueNames(db.actions) && id in db.actions && IsExport(db, id, doc) && Trimmed(db.actions[id].name)
    requires TagsFor(db.tagNames, Wanted(db, doc), added)
    ensures added == {} && FindAction(db.actions, Strip(doc.name)) == Some(id)
  {
    hide FindAction, Strip, ExportsMutex;
    FindUnique(db.actions, id);
    TagsBack(db.actions[id].tags, doc.tags);
    StoredTags(db, doc, id);
  }

  /** Tidy fields and rules are enough for an additive import of the export to change nothing; a full
      one also needs that no attached tag is empty. */
  lemma ImportOfExport(db: Db, id: int, doc: Document, mode: Mode, newId: int, registry: set<string>, db': Db,
                       outcome: Outcome)
    requires WellFormed(db) && id in db.actions && IsExport(db, id, doc)
    requires Imports(db, doc, mode, newId, registry, db', outcome)
    requires FieldsTidy(db, db.actions[id], registry) && MutexTidy(db, db.actions[id].mutex)
    requires mode.Full? ==> "" !in db.actions[id].tags
    ensures NoOp(db, db', id, outcome)
  {
    hide FindAction, Strip, Resolved, FieldsOf, Targets, Norms, Orphans, Storable, RulesStorable, Imports,
         ExportsMutex, ExportsTags, MutexTidy, Rules, FieldsTidy, UniqueNames, Trimmed;
    var row := db.actions[id];
    assert RowOk(db, id);
    FieldsBackIff(db, id, doc, registry);
    TrimmedFound(db, id);
    MutexBack(db, id, row.mutex, doc.mutex);
    TagsBack(row.tags, doc.tags);
    assert row.mutex + row.mutex == row.mutex;
    assert TagsDone(row.tags, doc, mode);
    NothingToDo(db, doc, mode, newId, registry, id, db', outcome);
  }

  lemma TrimmedFound(db: Db, id: int)
    requires UniqueNames(db.actions) && id in db.actions && Trimmed(db.actions[id].name)
    ensures FindAction(db.actions, Strip(db.actions[id].name)) == Some(id)
  {
    hide FindAction, Strip, UniqueNames;
    FindUnique(db.actions, id);
  }

  /** What a full import that changes nothing says about the exported action. */
  lemma NoOpTidy(db: Db, id: int, doc: Document, newId: int, registry: set<string>, added: set<string>)
    requires WellFormed(db) && id in db.actions && newId !in db.actions && IsExport(db, id, doc)
    requires var (db', outcome) := Applied(db, doc, Full, newId, registry, added); NoOp(db, db', id, outcome)
    requires TagsFor(db.tagNames, Wanted(db, doc), added)
    ensures Tidy(db, id, registry)
  {
    hide FindAction, Strip, Resolved, FieldsOf, Wanted, Targets, Norms, Orphans, TagsFor, Storable, RulesStorable,
         ExportsMutex, ExportsTags, MutexTidy, Rules, FieldsTidy, WellFormed, WithFields, Applied;
    var row := db.actions[id];
    NoOpFields(db, id, doc, Full, newId, registry, added);
    FieldsBackIff(db, id, doc, registry);
    NothingWanted(db, id, doc, added);
    TagsBack(row.tags, doc.tags);
    MutexBackOnly(db, row.mutex, doc.mutex);
  }

  lemma NoOpFields(db: Db, id: int, doc: Document, mode: Mode, newId: int, registry: set<string>, added: set<string>)
    requires WellFormed(db) && id in db.actions && newId !in db.actions && doc.name == db.actions[id].name
    requires var (db', outcome) := Applied(db, doc, mode, newId, registry, added); NoOp(db, db', id, outcome)
    ensures UniqueNames(db.actions)
    ensures FieldsOf(db, doc, registry) == Ok(db.actions[id].fields) && Trimmed(db.actions[id].name)
    ensures Resolved(db.actions, doc.mutex).Ok?
    ensures SyncedMutex(db.actions[id].mutex, Resolved(db.actions, doc.mutex).value, mode) == db.actions[id].mutex
    ensures SyncedTags(db.actions[id].tags, Targets(doc.tags), mode, added) == db.actions[id].tags
  {
    hide FindAction, Strip, Resolved, Targets, Storable, RulesStorable, RowOk, Rules, SyncedTags, Blank,
         Validator.AllWithDefaults, Validator.Accepted, Reference, ItemType, FieldsOf;
    FoundIsThere(db.actions, Strip(doc.name));
    var f := FieldsOf(db, doc, registry).value;
    var row := db.actions[id];
    assert row.(fields := f) == row && db.actions[id := row] == db.actions;
    NotBlank(db, doc, registry);
    StripIdempotent(doc.name);
  }

  lemma NotBlank(db: Db, doc: Document, registry: set<string>)
    requires FieldsOf(db, doc, registry).Ok?
    ensures Strip(doc.name) != ""
  {
    hide Strip, Validator.AllWithDefaults, Validator.Accepted, Reference, ItemType;
    BlankIffStripsToNothing(doc.name);
  }

  /** Importing an export in full mode changes nothing, and says so, exactly when the action is tidy. */
  lemma FullImportOfExportIff(db: Db, id: int, doc: Document, newId: int, registry: set<string>, db': Db,
                              outcome: Outcome)
    requires WellFormed(db) && id in db.actions && newId !in db.actions && IsExport(db, id, doc)
    requires Imports(db, doc, Full, newId, registry, db', outcome)
    ensures NoOp(db, db', id, outcome) <==> Tidy(db, id, registry)
  {
    hide WellFormed, IsExport, FieldsTidy, MutexTidy, Applied, Wanted, TagsFor;
    if Tidy(db, id, registry) {
      ImportOfExport(db, id, doc, Full, newId, registry, db', outcome);
    }
    if NoOp(db, db', id, outcome) {
      var added :| TagsFor(db.tagNames, Wanted(db, doc), added)
        && (db', outcome) == Applied(db, doc, Full, newId, registry, added);
      NoOpTidy(db, id, doc, newId, registry, added);
    }
  }
}
