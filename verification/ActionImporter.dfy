/** The import and export of actions as the service carries them out, step by step. */
module ActionImporter {
  import opened ActionImport
  import opened Text
  import opened Workflow
  import Validator

  /** One more tag, found or created. */
  lemma OneMoreTag(tagNames: set<string>, done: set<string>, added: set<string>, t: string, x: string)
    requires TagsFor(tagNames, done, added) && t !in done && Lower(x) == t
    requires x in tagNames || NewTag(tagNames, x)
    ensures TagsFor(tagNames, done + {t}, added + {x})
  {
    hide Lower;
    forall s | s in done + {t}
      ensures exists y :: y in added + {x} && Lower(y) == s
    {
      if s != t {
        var y :| y in added && Lower(y) == s;
      } else {
        assert x in added + {x};
      }
    }
  }

  lemma NoTags(tagNames: set<string>)
    ensures forall none: set<string> :: none == {} ==> TagsFor(tagNames, none, none)
  {
  }

  /** A tag found or created beside the tags chosen so far is found or created beside the stored ones. */
  lemma NewOrOld(tagNames: set<string>, done: set<string>, added: set<string>, t: string, x: string)
    requires TagsFor(tagNames, done, added) && t !in done && Lower(x) == t
    requires x in tagNames + added || NewTag(tagNames + added, x)
    ensures x in tagNames || NewTag(tagNames, x)
  {
    hide Lower;
  }

  lemma TargetIsLower(names: seq<string>, t: string)
    requires t in Targets(names)
    ensures Lower(t) == t
  {
    hide Strip, Lower;
    var n :| n in names && Normalized(n) == t;
    NormalizedIdempotent(n);
  }

  /** No tag that was just added is an orphan. */
  lemma AddedStay(tags: set<string>, names: seq<string>, added: set<string>, tagNames: set<string>)
    requires TagsFor(tagNames, Targets(names) - Norms(tags), added)
    ensures (set x | x in tags + added && Lower(x) !in Norms(tags) - Targets(names)) ==
      SyncedTags(tags, Targets(names), Full, added)
  {
    hide Targets, Lower, Norms;
  }

  lemma {:induction false} ResolvedFails(actions: map<int, Row>, specs: seq<MutexSpec>, n: nat)
    requires n <= |specs| && Resolved(actions, specs[..n]).Err?
    ensures Resolved(actions, specs) == Resolved(actions, specs[..n])
    decreases |specs|
  {
    hide FindAction, Strip, OrEmpty;
    if n == |specs| {
      assert specs[..n] == specs;
    } else {
      var m := |specs| - 1;
      assert specs[..m][..n] == specs[..n];
      ResolvedFails(actions, specs[..m], n);
    }
  }

  /** The ways an import ends. */
  lemma RejectsFields(db: Db, doc: Document, mode: Mode, newId: int, registry: set<string>, e: Error)
    requires FieldsOf(db, doc, registry) == Err(e)
    ensures Imports(db, doc, mode, newId, registry, db, Rejected(e))
  {
    hide FieldsOf, FindAction, Targets, Norms, Strip;
    var added := ChooseTags(db.tagNames, doc.tags, Wanted(db, doc));
    assert (db, Rejected(e)) == Applied(db, doc, mode, newId, registry, added);
  }

  lemma RejectsRow(db: Db, doc: Document, mode: Mode, newId: int, registry: set<string>, f: Fields)
    requires FieldsOf(db, doc, registry) == Ok(f)
    requires !Storable(f, WithFields(db, Strip(doc.name), f, newId).1.softDeleted)
    ensures Imports(db, doc, mode, newId, registry, db, Rejected(ConstraintViolated))
  {
    hide FieldsOf, WithFields, Storable, Strip, FindAction, Targets, Norms;
    WithFieldsStored(db, Strip(doc.name), f, newId);
    var added := ChooseTags(db.tagNames, doc.tags, Wanted(db, doc));
    assert (db, Rejected(ConstraintViolated)) == Applied(db, doc, mode, newId, registry, added);
  }

  lemma Finishes(db: Db, doc: Document, mode: Mode, newId: int, registry: set<string>, f: Fields, id: int, row: Row,
                 added: set<string>, db': Db, outcome: Outcome)
    requires FieldsOf(db, doc, registry) == Ok(f) && (id, row) == WithFields(db, Strip(doc.name), f, newId)
    requires Storable(f, row.softDeleted) && TagsFor(db.tagNames, Targets(doc.tags) - Norms(row.tags), added)
    requires (db', outcome) == Finished(db, doc, mode, id, row, added)
    ensures Imports(db, doc, mode, newId, registry, db', outcome)
  {
    hide FieldsOf, Wanted, WithFields, Storable, Strip, TagsFor, Targets, Norms, Finished;
    WithFieldsStored(db, Strip(doc.name), f, newId);
    FirstTags(db, doc, f, newId);
    assert (db', outcome) == Applied(db, doc, mode, newId, registry, added);
  }

  lemma NoRules(id: int, current: map<int, Rule>)
    ensures current + Rules(map[]) == current && RulesStorable(id, map[])
  {
    assert Rules(map[]) == map[];
  }

  lemma NotStorable(id: int, m: map<int, MutexSpec>, k: int)
    requires k in m && (k == id || m[k].sameTarget.Null?)
    ensures !RulesStorable(id, m)
  {
  }

  lemma OneMoreRule(id: int, current: map<int, Rule>, done: map<int, MutexSpec>, k: int, spec: MutexSpec)
    requires RulesStorable(id, done) && k != id && !spec.sameTarget.Null?
    ensures RulesStorable(id, done[k := spec])
      && (current + Rules(done))[k := RuleOf(spec)] == current + Rules(done[k := spec])
  {
    hide RuleOf;
    assert Rules(done[k := spec]) == Rules(done)[k := RuleOf(spec)];
  }

  /** Without the orphans, the written rules are the document's. */
  lemma OrphansGone(current: map<int, Rule>, m: map<int, MutexSpec>)
    ensures current + Rules(m) - (current.Keys - m.Keys) == Rules(m)
  {
    hide RuleOf;
  }

  /** Tags for wanted names can always be chosen. */
  lemma ChooseTags(tagNames: set<string>, names: seq<string>, wanted: set<string>) returns (added: set<string>)
    requires wanted <= Targets(names)
    ensures TagsFor(tagNames, wanted, added)
    decreases wanted
  {
    hide Targets, Lower;
    added := {};
    if t :| t in wanted {
      var others := ChooseTags(tagNames, names, wanted - {t});
      TargetIsLower(names, t);
      var x := t;
      if y :| y in tagNames && Lower(y) == t {
        x := y;
      }
      OneMoreTag(tagNames, wanted - {t}, others, t, x);
      assert wanted - {t} + {t} == wanted;
      added := others + {x};
    }
  }

  class Importer {
    var db: Db

    constructor (db: Db)
      ensures this.db == db
    {
      this.db := db;
    }

    method Lookup(name: string) returns (found: Option<int>)
      requires UniqueNames(db.actions)
      ensures found == FindAction(db.actions, name)
    {
      if id :| id in db.actions && db.actions[id].name == name {
        FindUnique(db.actions, id);
        return Some(id);
      }
      found := None;
    }

    /** Attaches a tag for each wanted name, creating those that do not exist. */
    method AddTags(id: int, names: seq<string>, wanted: set<string>) returns (ghost added: set<string>)
      requires id in db.actions && wanted <= Targets(names)
      modifies this
      ensures TagsFor(old(db).tagNames, wanted, added)
      ensures var row := old(db).actions[id];
              db == old(db).(tagNames := old(db).tagNames + added,
                             actions := old(db).actions[id := row.(tags := row.tags + added)])
    {
      hide Targets, Lower, TagsFor;
      NoTags(db.tagNames);
      added := {};
      var rest := wanted;
      var row := db.actions[id];
      var tags, tagNames := row.tags, db.tagNames;
      assert wanted - rest == {} && row.tags + {} == row.tags;
      while rest != {}
        invariant db == old(db)
        invariant rest <= wanted && tags == row.tags + added && tagNames == old(db).tagNames + added
        invariant TagsFor(old(db).tagNames, wanted - rest, added)
        decreases |rest|
      {
        if forall j :: j !in rest { assert false; }
        var t :| t in rest;
        TargetIsLower(names, t);
        var tag := t;
        if x :| x in tagNames && Lower(x) == t {
          tag := x;
        } else {
          tagNames := tagNames + {t};
        }
        tags := tags + {tag};
        NewOrOld(old(db).tagNames, wanted - rest, added, t, tag);
        OneMoreTag(old(db).tagNames, wanted - rest, added, t, tag);
        added := added + {tag};
        assert wanted - (rest - {t}) == (wanted - rest) + {t};
        rest := rest - {t};
      }
      assert wanted - rest == wanted && tags == row.tags + added;
      db := db.(tagNames := tagNames, actions := db.actions[id := row.(tags := tags)]);
    }

    /** Detaches the tags whose names, but for their case, are orphans. */
    method RemoveTags(id: int, orphans: set<string>)
      requires id in db.actions
      modifies this
      ensures var row := old(db).actions[id];
              db == old(db).(actions := old(db).actions[id :=
                row.(tags := set x | x in row.tags && Lower(x) !in orphans)])
    {
      hide Lower;
      var rest := orphans;
      var tags := db.actions[id].tags;
      while rest != {}
        invariant rest <= orphans && tags == set x | x in db.actions[id].tags && Lower(x) !in orphans - rest
        decreases |rest|
      {
        if forall j :: j !in rest { assert false; }
        var o :| o in rest;
        tags := set x | x in tags && Lower(x) != o;
        rest := rest - {o};
      }
      assert orphans - rest == orphans;
      db := db.(actions := db.actions[id := db.actions[id].(tags := tags)]);
    }

    method SyncTags(id: int, names: seq<string>, mode: Mode) returns (ghost added: set<string>)
      requires id in db.actions
      modifies this
      ensures TagsFor(old(db).tagNames, Targets(names) - Norms(old(db).actions[id].tags), added)
      ensures var row := old(db).actions[id];
              db == old(db).(tagNames := old(db).tagNames + added,
                             actions := old(db).actions[id :=
                               row.(tags := SyncedTags(row.tags, Targets(names), mode, added))])
    {
      hide Targets, Lower, Norms;
      var current, target := Norms(db.actions[id].tags), Targets(names);
      ghost var tags := db.actions[id].tags;
      added := AddTags(id, names, target - current);
      if mode.Full? {
        RemoveTags(id, current - target);
        AddedStay(tags, names, added, old(db).tagNames);
      }
    }

    /** The specifications by the action they name. */
    method ResolveMutex(specs: seq<MutexSpec>) returns (targets: Result<map<int, MutexSpec>>)
      requires UniqueNames(db.actions)
      ensures targets == Resolved(db.actions, specs)
    {
      hide FindAction, Strip, UniqueNames;
      var m: map<int, MutexSpec> := map[];
      for i := 0 to |specs|
        invariant Resolved(db.actions, specs[..i]) == Ok(m)
      {
        assert specs[..i + 1][..i] == specs[..i];
        var name := Strip(OrEmpty(specs[i].incompatibleWith));
        if name == "" {
          ResolvedFails(db.actions, specs, i + 1);
          return Err(MissingMutexTarget);
        }
        var found := Lookup(name);
        if found.None? {
          ResolvedFails(db.actions, specs, i + 1);
          return Err(MutexActionNotFound);
        }
        m := m[found.value := specs[i]];
      }
      assert specs[..|specs|] == specs;
      targets := Ok(m);
    }

    /** Adds or updates the rule of each target; None when a row cannot be saved. */
    method WriteRules(id: int, current: map<int, Rule>,
                      m: map<int, MutexSpec>) returns (written: Option<map<int, Rule>>)
      ensures written == if RulesStorable(id, m) then Some(current + Rules(m)) else None
    {
      hide RuleOf, Rules, RulesStorable;
      var rules, rest := current, m.Keys;
      var done: map<int, MutexSpec> := map[];
      NoRules(id, current);
      while rest != {}
        invariant rest <= m.Keys && done == m - rest
        invariant rules == current + Rules(done) && RulesStorable(id, done)
        decreases |rest|
      {
        if forall j :: j !in rest { assert false; }
        var k :| k in rest;
        if k == id || m[k].sameTarget.Null? {
          NotStorable(id, m, k);
          return None;
        }
        OneMoreRule(id, current, done, k, m[k]);
        rules := rules[k := RuleOf(m[k])];
        done := done[k := m[k]];
        rest := rest - {k};
      }
      assert done == m;
      written := Some(rules);
    }

    /** On an error nothing is written here; the caller rolls back what was written before. */
    method SyncMutex(id: int, specs: seq<MutexSpec>, mode: Mode) returns (error: Option<Error>)
      requires UniqueNames(db.actions) && id in db.actions
      modifies this
      ensures var targets := Resolved(old(db).actions, specs);
              && (targets.Err? ==> error == Some(targets.error))
              && (targets.Ok? && !RulesStorable(id, targets.value) ==> error == Some(ConstraintViolated))
              && (targets.Ok? && RulesStorable(id, targets.value) ==>
                    var row := old(db).actions[id];
                    error == None &&
                    db == old(db).(actions := old(db).actions[id :=
                      row.(mutex := SyncedMutex(row.mutex, targets.value, mode))]))
    {
      hide Resolved, UniqueNames, Rules, RulesStorable;
      var targets := ResolveMutex(specs);
      if targets.Err? {
        return Some(targets.error);
      }
      var m := targets.value;
      var current := db.actions[id].mutex;
      var written := WriteRules(id, current, m);
      if written.None? {
        return Some(ConstraintViolated);
      }
      var rules := written.value;
      if mode.Full? {
        OrphansGone(current, m);
        rules := rules - (current.Keys - m.Keys);
      }
      db := db.(actions := db.actions[id := db.actions[id].(mutex := rules)]);
      error := None;
    }

    /** Validates the document and writes the retry defaults into its steps. */
    method ReadFields(doc: Document, registry: set<string>) returns (fields: Result<Fields>)
      ensures fields == FieldsOf(db, doc, registry)
    {
      hide Strip, Reference, ItemType, Blank, Validator.Accepted, Validator.AllWithDefaults;
      if Blank(doc.name) {
        return Err(MissingName);
      }
      var engine, platform := Strip(OrEmpty(doc.engine)), Strip(OrEmpty(doc.platform));
      if engine == "" {
        return Err(MissingEngine);
      }
      if platform == "" {
        return Err(MissingPlatform);
      }
      var integration := Reference(doc.integrationRef, db.integrations, IntegrationNotFound);
      if integration.Err? {
        return Err(integration.error);
      }
      var policy := Reference(doc.policyRef, db.policies, PolicyNotFound);
      if policy.Err? {
        return Err(policy.error);
      }
      var itemType := ItemType(doc.itemType);
      var steps := doc.steps.ToOption();
      if doc.steps.Is? && itemType == "workflow" {
        var given := doc.steps.value;
        var list := new Step[|given|](i requires 0 <= i < |given| => given[i]);
        assert list[..] == given;
        var error := Validator.ValidateWorkflowSteps(list, None, registry);
        if error.Some? {
          return Err(InvalidWorkflowSteps);
        }
        steps := Some(list[..]);
      }
      if doc.status.Null? || doc.requiresTarget.Null? {
        return Err(ConstraintViolated);
      }
      fields := Ok(Fields(
        engine, platform, if doc.status.Is? then doc.status.value else "draft", itemType,
        doc.requiresTarget.Missing? || doc.requiresTarget.value,
        OrNone(doc.description), OrNone(doc.category), OrNone(doc.impactLevel), OrNone(doc.documentation),
        integration.value, policy.value, doc.parametersSchema.ToOption(), steps,
        doc.impactRules.ToOption(), doc.notificationConfig.ToOption(), doc.remediationRules.ToOption()));
    }

    /** One transaction: whatever is rejected leaves the database as it was. */
    method ImportActionYaml(doc: Document, mode: Mode, newId: int, registry: set<string>) returns (outcome: Outcome)
      requires UniqueNames(db.actions) && newId !in db.actions
      modifies this
      ensures Imports(old(db), doc, mode, newId, registry, db, outcome)
      ensures UniqueNames(db.actions)
      ensures outcome.Rejected? ==> db == old(db)
    {
      hide FieldsOf, Strip, FindAction, Resolved, SyncedTags, SyncedMutex, Targets, Norms, TagsFor, RulesStorable,
           Storable,
           UniqueNames, Imports;
      ghost var before := db;
      var fields := ReadFields(doc, registry);
      if fields.Err? {
        RejectsFields(before, doc, mode, newId, registry, fields.error);
        return Rejected(fields.error);
      }
      var f, name := fields.value, Strip(doc.name);
      var found := Lookup(name);
      var id := if found.Some? then found.value else newId;
      FoundIsThere(db.actions, name);
      var row := if found.Some? then db.actions[id].(fields := f) else Row(name, f, false, {}, map[]);
      assert (id, row) == WithFields(before, name, f, newId);
      WithFieldsUnique(before, name, f, newId);
      if !Storable(f, row.softDeleted) {
        RejectsRow(before, doc, mode, newId, registry, f);
        return Rejected(ConstraintViolated);
      }
      var saved := db;
      outcome := if found.None? then Imported(id, 1, 0, 0)
                 else if db.actions[id].fields != f then Imported(id, 0, 1, 0) else Imported(id, 0, 0, 1);
      db := db.(actions := db.actions[id := row]);
      ghost var added := SyncTags(id, doc.tags, mode);
      SameNameUnique(before.actions, id, row, db.actions[id]);
      assert db.actions == before.actions[id := db.actions[id]];
      ResolvedByNames(before.actions[id := row], db.actions, doc.mutex) by {
        assert SameNames(before.actions[id := row], db.actions);
      }
      var error := SyncMutex(id, doc.mutex, mode);
      if error.Some? {
        db := saved;
        outcome := Rejected(error.value);
        Finishes(before, doc, mode, newId, registry, f, id, row, added, db, outcome);
        return;
      }
      SameNameUnique(before.actions, id, row, db.actions[id]);
      assert db.actions == before.actions[id := db.actions[id]];
      Finishes(before, doc, mode, newId, registry, f, id, row, added, db, outcome);
    }

    /** The name a foreign key stands for, if there is one. */
    method ReferenceTo(key: Option<int>, names: map<string, int>) returns (ref: Field<string>)
      requires key.Some? ==> key.value in names.Values
      ensures Refers(ref, key, names)
    {
      if key.None? {
        return Missing;
      }
      var name :| name in names && names[name] == key.value;
      ref := Is(name);
    }

    method ExportTags(tags: set<string>) returns (names: seq<string>)
      ensures ExportsTags(tags, names)
    {
      hide Normalized;
      var rest := Norms(tags) - {""};
      names := [];
      while rest != {}
        invariant rest <= Norms(tags) - {""}
        invariant forall n :: n in names <==> n in Norms(tags) && n != "" && n !in rest
        decreases |rest|
      {
        if forall j :: j !in rest { assert false; }
        var n :| n in rest;
        names := names + [n];
        rest := rest - {n};
      }
    }

    method ExportMutex(mutex: map<int, Rule>) returns (specs: seq<MutexSpec>)
      requires forall k :: k in mutex ==> k in db.actions
      ensures ExportsMutex(db, mutex, specs)
    {
      hide SpecOf;
      specs := [];
      var rest := mutex.Keys;
      while rest != {}
        invariant rest <= mutex.Keys
        invariant forall k :: k in mutex && k !in rest ==> SpecOf(db, k, mutex[k]) in specs
        invariant forall s :: s in specs ==> exists k :: ForRule(db, mutex, s, k)
        decreases |rest|
      {
        if forall j :: j !in rest { assert false; }
        var k :| k in rest;
        assert ForRule(db, mutex, SpecOf(db, k, mutex[k]), k);
        specs := specs + [SpecOf(db, k, mutex[k])];
        rest := rest - {k};
      }
    }

    /** None: no action has the name. Fields that are null are left out. */
    method ExportActionYaml(name: string) returns (doc: Option<Document>)
      requires WellFormed(db)
      ensures doc.None? <==> FindAction(db.actions, name).None?
      ensures doc.Some? ==>
        var id := FindAction(db.actions, name).value;
        id in db.actions && IsExport(db, id, doc.value)
    {
      hide FindAction, Storable, ExportsTags, ExportsMutex, Refers;
      var found := Lookup(name);
      FoundIsThere(db.actions, name);
      if found.None? {
        return None;
      }
      var row := db.actions[found.value];
      assert RowOk(db, found.value);
      var f := row.fields;
      var integrationRef := ReferenceTo(f.integration, db.integrations);
      var policyRef := ReferenceTo(f.policy, db.policies);
      var tags := ExportTags(row.tags);
      var mutex := ExportMutex(row.mutex);
      doc := Some(Document(
        row.name, Is(f.engine), Is(f.platform), Is(f.status), Is(f.itemType), Is(f.requiresTarget),
        Present(f.description), Present(f.category), Present(f.impactLevel), Present(f.documentation),
        integrationRef, policyRef, tags, mutex, Present(f.parametersSchema), Present(f.steps),
        Present(f.impactRules), Present(f.notificationConfig), Present(f.remediationRules)));
    }
  }
}
