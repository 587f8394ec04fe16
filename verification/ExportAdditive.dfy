/** Exactly when an export imported back in additive mode changes nothing. */
module ExportAdditive {
  import opened Workflow
  import opened ActionImport
  import opened ImportOutcomes

  ghost predicate NamesSome(actions: map<int, Row>, s: MutexSpec) {
    exists k :: NamesAction(actions, s, k)
  }

  ghost predicate AllName(actions: map<int, Row>, specs: seq<MutexSpec>) {
    forall i :: 0 <= i < |specs| ==> NamesSome(actions, specs[i])
  }

  /** The last specification that names an action repeats the rule for that action. */
  ghost predicate LastRepeats(actions: map<int, Row>, mutex: map<int, Rule>, specs: seq<MutexSpec>) {
    forall k, i :: LastNaming(actions, specs, k, i) ==> k in mutex && RuleOf(specs[i]) == mutex[k]
  }

  lemma {:induction false} ResolvedIff(actions: map<int, Row>, specs: seq<MutexSpec>)
    requires UniqueNames(actions)
    ensures Resolved(actions, specs).Ok? <==> AllName(actions, specs)
  {
    hide FindAction, NamesAction, NamesSome, Text.Strip, OrEmpty, UniqueNames;
    if specs != [] {
      var n := |specs| - 1;
      ResolvedIff(actions, specs[..n]);
      SpecFound(actions, specs[n]);
      assert forall i :: 0 <= i < n ==> specs[..n][i] == specs[i];
    }
  }

  lemma SpecFound(actions: map<int, Row>, s: MutexSpec)
    requires UniqueNames(actions)
    ensures NamesSome(actions, s) <==>
      Text.Strip(OrEmpty(s.incompatibleWith)) != ""
        && FindAction(actions, Text.Strip(OrEmpty(s.incompatibleWith))).Some?
  {
    hide Text.Strip;
    var name := Text.Strip(OrEmpty(s.incompatibleWith));
    FoundIsThere(actions, name);
    if k :| NamesAction(actions, s, k) {
      FoundIsNamed(actions, s, k);
    }
    if name != "" && FindAction(actions, name).Some? {
      assert NamesAction(actions, s, FindAction(actions, name).value);
    }
  }

  /** Whoever is named is named last by some specification. */
  lemma {:induction false} HasLast(actions: map<int, Row>, specs: seq<MutexSpec>, k: int, n: nat) returns (i: int)
    requires n <= |specs| && Named(actions, specs[..n], k) && forall j :: n <= j < |specs| ==>
      !NamesAction(actions, specs[j], k)
    ensures LastNaming(actions, specs, k, i)
  {
    hide NamesAction;
    if NamesAction(actions, specs[n - 1], k) {
      i := n - 1;
    } else {
      var j :| 0 <= j < n && NamesAction(actions, specs[..n][j], k);
      assert specs[..n - 1][j] == specs[j];
      i := HasLast(actions, specs, k, n - 1);
    }
  }

  lemma KeptIff(actions: map<int, Row>, mutex: map<int, Rule>, specs: seq<MutexSpec>, m: map<int, MutexSpec>)
    requires HoldsLast(actions, specs, m)
    ensures mutex + Rules(m) == mutex <==> LastRepeats(actions, mutex, specs)
  {
    hide NamesAction, RuleOf;
    if LastRepeats(actions, mutex, specs) {
      forall k | k in m
        ensures k in mutex && RuleOf(m[k]) == mutex[k]
      {
        assert specs[..|specs|] == specs;
        var i := HasLast(actions, specs, k, |specs|);
      }
    }
    if mutex + Rules(m) == mutex {
      forall k, i | LastNaming(actions, specs, k, i)
        ensures k in mutex && RuleOf(specs[i]) == mutex[k]
      {
        assert k in m && m[k] == specs[i] && (mutex + Rules(m))[k] == RuleOf(specs[i]);
      }
    }
  }

  lemma SpecsStorable(db: Db, id: int, specs: seq<MutexSpec>, m: map<int, MutexSpec>)
    requires id in db.actions && RowOk(db, id) && ExportsMutex(db, db.actions[id].mutex, specs)
    requires KeysOf(db.actions, specs, m) && db.actions[id].mutex + Rules(m) == db.actions[id].mutex
    ensures RulesStorable(id, m)
  {
    hide SpecFor, RuleOf, Covered;
    var mutex := db.actions[id].mutex;
    assert forall k :: k in m ==> k in Rules(m) && k in mutex + Rules(m);
    forall k | k in m
      ensures !m[k].sameTarget.Null?
    {
      var j :| ForRule(db, mutex, m[k], j);
    }
  }

  /** In additive mode importing an export changes nothing, and says so, exactly when the fields are tidy and the
      exported specifications name actions, the last one for each action repeating its rule. */
  lemma AdditiveImportOfExportIff(db: Db, id: int, doc: Document, newId: int, registry: set<string>, db': Db,
                                  outcome: Outcome)
    requires WellFormed(db) && id in db.actions && newId !in db.actions && IsExport(db, id, doc)
    requires Imports(db, doc, Additive, newId, registry, db', outcome)
    ensures NoOp(db, db', id, outcome) <==>
      && FieldsTidy(db, db.actions[id], registry)
      && AllName(db.actions, doc.mutex) && LastRepeats(db.actions, db.actions[id].mutex, doc.mutex)
  {
    hide FindAction, Text.Strip, Resolved, FieldsOf, Targets, Norms, Orphans, Storable, RulesStorable, Applied, Wanted,
      TagsFor,
         ExportsMutex, ExportsTags, Rules, FieldsTidy, UniqueNames, Trimmed, AllName, LastRepeats, HoldsLast, KeysOf;
    var row := db.actions[id];
    assert RowOk(db, id);
    FieldsBackIff(db, id, doc, registry);
    ResolvedIff(db.actions, doc.mutex);
    TagsBack(row.tags, doc.tags);
    if AllName(db.actions, doc.mutex) {
      var m := Resolved(db.actions, doc.mutex).value;
      ResolvedHoldsLast(db.actions, doc.mutex);
      ResolvedKeys(db.actions, doc.mutex);
      KeptIff(db.actions, row.mutex, doc.mutex, m);
      if FieldsTidy(db, row, registry) && LastRepeats(db.actions, row.mutex, doc.mutex) {
        TrimmedFound(db, id);
        SpecsStorable(db, id, doc.mutex, m);
        assert TagsDone(row.tags, doc, Additive);
        NothingToDo(db, doc, Additive, newId, registry, id, db', outcome);
      }
    }
    if NoOp(db, db', id, outcome) {
      var added :| TagsFor(db.tagNames, Wanted(db, doc), added)
        && (db', outcome) == Applied(db, doc, Additive, newId, registry, added);
      NoOpFields(db, id, doc, Additive, newId, registry, added);
    }
  }
}
