/** The importer's database seen as the catalogue's rows: an accepted import is one of the catalogue's operations. */
module CatalogImport {
  import opened ActionImport
  import opened Text
  import opened Workflow
  import Catalog
  import Validator

  function StatusOf(status: string): Catalog.ActionStatus {
    if status == "draft" then Catalog.Draft else if status == "published" then Catalog.Published else Catalog.Disabled
  }

  function TypeOf(itemType: string): Catalog.ItemType {
    if itemType == "workflow" then Catalog.WorkflowItem else Catalog.PlainAction
  }

  function StepsOf(steps: Option<seq<Step>>): seq<Step> {
    if steps.Some? then steps.value else []
  }

  function Seen(row: Row): Catalog.Row {
    Catalog.Row(TypeOf(row.fields.itemType), StatusOf(row.fields.status), StepsOf(row.fields.steps), row.softDeleted)
  }

  function View(actions: map<int, Row>): Catalog.Actions {
    map k | k in actions :: Seen(actions[k])
  }

  /** The operation an import amounts to. */
  ghost function OpOf(doc: Document, f: Fields, id: int, registry: set<string>): Catalog.Op {
    Catalog.Import(id, TypeOf(f.itemType), StatusOf(f.status), StepsOf(doc.steps.ToOption()), registry)
  }

  lemma StepsStored(db: Db, doc: Document, registry: set<string>, f: Fields)
    requires FieldsOf(db, doc, registry) == Ok(f)
    ensures StepsOf(f.steps) == Catalog.StoredSteps(TypeOf(f.itemType), StepsOf(doc.steps.ToOption()))
    ensures TypeOf(f.itemType) == Catalog.WorkflowItem ==>
      Validator.Accepted(Validator.AllWithDefaults(StepsOf(doc.steps.ToOption())), None, registry)
  {
    hide Strip, Blank, ItemType, Reference, Validator.GloballyOk, Validator.LocallyOk, Validator.WithDefaults;
    assert Validator.AllWithDefaults([]) == [];
  }

  /** An accepted import is the catalogue's import of the same row, and happens there too. */
  lemma ImportIsOp(db: Db, doc: Document, mode: Mode, newId: int, registry: set<string>, db': Db, outcome: Outcome)
    requires UniqueNames(db.actions) && newId !in db.actions
    requires Imports(db, doc, mode, newId, registry, db', outcome) && outcome.Imported?
    ensures FieldsOf(db, doc, registry).Ok?
    ensures var op := OpOf(doc, FieldsOf(db, doc, registry).value, outcome.id, registry);
            Catalog.Happens(View(db.actions), op) && View(db'.actions) == Catalog.Perform(View(db.actions), op)
  {
    hide FieldsOf, Resolved, RulesStorable, SyncedTags, SyncedMutex, Targets, TagsFor, Wanted, Strip, UniqueNames,
         Validator.Accepted, Validator.AllWithDefaults, Applied;
    var added :| TagsFor(db.tagNames, Wanted(db, doc), added)
      && (db', outcome) == Applied(db, doc, mode, newId, registry, added);
    ImportedRow(db, doc, mode, newId, registry, added);
    var f := FieldsOf(db, doc, registry).value;
    StepsStored(db, doc, registry, f);
    FoundIsThere(db.actions, Strip(doc.name));
    var row := db'.actions[outcome.id];
    assert row.fields == f;
    assert Seen(row) == Catalog.ImportedRow(View(db.actions), outcome.id, TypeOf(f.itemType), StatusOf(f.status),
                                            StepsOf(doc.steps.ToOption()));
  }
}
