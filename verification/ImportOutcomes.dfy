/** What an accepted import leaves of the action's tags and mutex rules, said of the database it leaves. */
module ImportOutcomes {
  import opened ActionImport
  import opened Text
  import opened Workflow

  /** The specification names the action: its target, without surrounding blanks, is the action's name. */
  predicate NamesAction(actions: map<int, Row>, s: MutexSpec, k: int) {
    var name := Strip(OrEmpty(s.incompatibleWith));
    k in actions && name != "" && actions[k].name == name
  }

  ghost predicate Named(actions: map<int, Row>, specs: seq<MutexSpec>, k: int) {
    exists i :: 0 <= i < |specs| && NamesAction(actions, specs[i], k)
  }

  /** Specification i is the last one that names the action. */
  ghost predicate LastNaming(actions: map<int, Row>, specs: seq<MutexSpec>, k: int, i: int) {
    && 0 <= i < |specs| && NamesAction(actions, specs[i], k)
    && forall j :: i < j < |specs| ==> !NamesAction(actions, specs[j], k)
  }

  /** m holds, for exactly the actions that are named, the last specification that names them. */
  ghost predicate HoldsLast(actions: map<int, Row>, specs: seq<MutexSpec>, m: map<int, MutexSpec>) {
    && (forall k :: k in m <==> Named(actions, specs, k))
    && (forall k, i :: LastNaming(actions, specs, k, i) ==> k in m && m[k] == specs[i])
  }

  lemma FoundIsNamed(actions: map<int, Row>, s: MutexSpec, k: int)
    requires UniqueNames(actions) && Strip(OrEmpty(s.incompatibleWith)) != ""
    ensures FindAction(actions, Strip(OrEmpty(s.incompatibleWith))) == Some(k) <==> NamesAction(actions, s, k)
  {
    hide Strip;
    if k in actions {
      FindUnique(actions, k);
    }
    FoundIsThere(actions, Strip(OrEmpty(s.incompatibleWith)));
  }

  lemma OneMoreSpec(actions: map<int, Row>, specs: seq<MutexSpec>, m: map<int, MutexSpec>, s: MutexSpec, k: int)
    requires HoldsLast(actions, specs, m) && NamesAction(actions, s, k)
    requires forall j :: NamesAction(actions, s, j) ==> j == k
    ensures HoldsLast(actions, specs + [s], m[k := s])
  {
    hide NamesAction;
    var longer, m' := specs + [s], m[k := s];
    assert longer[|specs|] == s && forall i :: 0 <= i < |specs| ==> longer[i] == specs[i];
    forall j
      ensures j in m' <==> Named(actions, longer, j)
    {
      if Named(actions, specs, j) {
        var i :| 0 <= i < |specs| && NamesAction(actions, specs[i], j);
        assert NamesAction(actions, longer[i], j);
      }
    }
    forall j, i | LastNaming(actions, longer, j, i)
      ensures j in m' && m'[j] == longer[i]
    {
      if j != k {
        assert i < |specs|;
        forall x | i < x < |specs|
          ensures !NamesAction(actions, specs[x], j)
        {
          assert !NamesAction(actions, longer[x], j);
        }
      } else {
        assert NamesAction(actions, longer[|specs|], k);
        assert i == |specs|;
      }
    }
  }

  lemma {:induction false} ResolvedHoldsLast(actions: map<int, Row>, specs: seq<MutexSpec>)
    requires UniqueNames(actions) && Resolved(actions, specs).Ok?
    ensures HoldsLast(actions, specs, Resolved(actions, specs).value)
  {
    hide FindAction, Strip, UniqueNames, NamesAction;
    if specs != [] {
      hide HoldsLast;
      var n := |specs| - 1;
      ResolvedHoldsLast(actions, specs[..n]);
      var k := FindAction(actions, Strip(OrEmpty(specs[n].incompatibleWith))).value;
      forall j
        ensures NamesAction(actions, specs[n], j) <==> j == k
      {
        FoundIsNamed(actions, specs[n], j);
      }
      OneMoreSpec(actions, specs[..n], Resolved(actions, specs[..n]).value, specs[n], k);
      assert specs == specs[..n] + [specs[n]];
    }
  }

  /** Naming depends on names only. */
  lemma SameNaming(a: map<int, Row>, b: map<int, Row>, specs: seq<MutexSpec>, m: map<int, MutexSpec>)
    requires SameNames(a, b) && HoldsLast(a, specs, m)
    ensures HoldsLast(b, specs, m)
  {
    hide Strip;
    forall s, k
      ensures NamesAction(a, s, k) <==> NamesAction(b, s, k)
    {
    }
    hide NamesAction;
    forall k
      ensures Named(a, specs, k) <==> Named(b, specs, k)
    {
    }
  }

  function OldRules(db: Db, id: int): map<int, Rule> {
    if id in db.actions then db.actions[id].mutex else map[]
  }

  function OldTags(db: Db, id: int): set<string> {
    if id in db.actions then db.actions[id].tags else {}
  }

  /** The rule a specification asks for: the same target only when it says so, and no empty description. */
  predicate AsksFor(s: MutexSpec, rule: Rule) {
    && rule.sameTarget == (s.sameTarget == Is(true))
    && match s.description
       case Is(text) => rule.description == if text == "" then None else Some(text)
       case _ => rule.description == None
  }

  lemma AsksForOne(s: MutexSpec, rule: Rule)
    ensures AsksFor(s, rule) <==> rule == RuleOf(s)
  {
  }

  /** The rules after an import: keys are the actions the document names, with the old ones in additive mode;
      each rule is that of the last specification naming its action, or the old one. */
  ghost predicate RulesAsNamed(db: Db, db': Db, id: int, specs: seq<MutexSpec>, mode: Mode)
    requires id in db'.actions
  {
    var rules := db'.actions[id].mutex;
    && (forall k :: k in rules <==> Named(db'.actions, specs, k) || (mode.Additive? && k in OldRules(db, id)))
    && (forall k, i :: LastNaming(db'.actions, specs, k, i) ==> k in rules && AsksFor(specs[i], rules[k]))
    && (forall k :: k in rules && !Named(db'.actions, specs, k) ==>
        k in OldRules(db, id) && rules[k] == OldRules(db, id)[k])
  }

  lemma SyncedAsNamed(actions: map<int, Row>, specs: seq<MutexSpec>, m: map<int, MutexSpec>,
                      old_: map<int, Rule>, mode: Mode)
    requires HoldsLast(actions, specs, m)
    ensures var rules := SyncedMutex(old_, m, mode);
            && (forall k :: k in rules <==> Named(actions, specs, k) || (mode.Additive? && k in old_))
            && (forall k, i :: LastNaming(actions, specs, k, i) ==> k in rules && AsksFor(specs[i], rules[k]))
            && (forall k :: k in rules && !Named(actions, specs, k) ==> k in old_ && rules[k] == old_[k])
  {
    hide Named, NamesAction, RuleOf, AsksFor;
    var rules := SyncedMutex(old_, m, mode);
    forall k, i | LastNaming(actions, specs, k, i)
      ensures k in rules && AsksFor(specs[i], rules[k])
    {
      AsksForOne(specs[i], rules[k]);
    }
  }

  lemma WithFieldsOld(db: Db, name: string, f: Fields, newId: int)
    requires newId !in db.actions
    ensures var (id, row) := WithFields(db, name, f, newId);
            row.tags == OldTags(db, id) && row.mutex == OldRules(db, id)
  {
    FoundIsThere(db.actions, name);
  }

  /** Accepted imports leave the rules the document names: all and only these in full mode, the union with the
      old ones in additive mode. */
  lemma ImportedRules(db: Db, doc: Document, mode: Mode, newId: int, registry: set<string>, db': Db, outcome: Outcome)
    requires UniqueNames(db.actions) && newId !in db.actions
    requires Imports(db, doc, mode, newId, registry, db', outcome) && outcome.Imported?
    ensures outcome.id in db'.actions && RulesAsNamed(db, db', outcome.id, doc.mutex, mode)
  {
    hide Applied, WithFields, FieldsOf, Resolved, Storable, RulesStorable, SyncedTags, SyncedMutex, Targets, TagsFor,
         Norms, FindAction, Wanted, UniqueNames, Strip, HoldsLast, OldRules, OldTags, AsksFor;
    var added :| TagsFor(db.tagNames, Wanted(db, doc), added)
      && (db', outcome) == Applied(db, doc, mode, newId, registry, added);
    ImportedRow(db, doc, mode, newId, registry, added);
    var f := FieldsOf(db, doc, registry).value;
    var (id, row) := WithFields(db, Strip(doc.name), f, newId);
    var targets := Resolved(db.actions[id := row], doc.mutex).value;
    WithFieldsUnique(db, Strip(doc.name), f, newId);
    WithFieldsOld(db, Strip(doc.name), f, newId);
    ResolvedHoldsLast(db.actions[id := row], doc.mutex);
    SameNaming(db.actions[id := row], db'.actions, doc.mutex, targets);
    SyncedAsNamed(db'.actions, doc.mutex, targets, row.mutex, mode);
  }

  /** And they leave the tags the document asks for: the union with the old ones in additive mode; in full mode
      exactly these if and only if every other tag is stored without surrounding blanks. */
  lemma ImportedTags(db: Db, doc: Document, mode: Mode, newId: int, registry: set<string>, db': Db, outcome: Outcome)
    requires UniqueNames(db.actions) && newId !in db.actions
    requires Imports(db, doc, mode, newId, registry, db', outcome) && outcome.Imported?
    ensures outcome.id in db'.actions
    ensures var old_, tags, targets := OldTags(db, outcome.id), db'.actions[outcome.id].tags, Targets(doc.tags);
            if mode.Additive? then Norms(tags) == Norms(old_) + targets
            else Norms(tags) == targets <==> Removable(old_, targets)
  {
    hide Applied, WithFields, FieldsOf, Resolved, Storable, RulesStorable, SyncedTags, SyncedMutex, Targets, TagsFor,
         Norms, FindAction, Wanted, UniqueNames, Strip, Removable, OldRules, OldTags;
    var added :| TagsFor(db.tagNames, Wanted(db, doc), added)
      && (db', outcome) == Applied(db, doc, mode, newId, registry, added);
    ImportedRow(db, doc, mode, newId, registry, added);
    var f := FieldsOf(db, doc, registry).value;
    var (id, row) := WithFields(db, Strip(doc.name), f, newId);
    WithFieldsOld(db, Strip(doc.name), f, newId);
    FirstTags(db, doc, f, newId);
    TagsAfterImport(doc.tags, row.tags, db.tagNames, added);
  }
}
