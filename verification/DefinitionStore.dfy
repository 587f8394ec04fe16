/** The normalised definition tables: writing a step list to them and reading it back. */
module DefinitionStore {
  import opened Workflow
  import opened Routing

  datatype Kind = Success | Error

  datatype StepRow = StepRow(definition: int, stepId: string, stepOrder: int, stepType: string,
    referencedActionId: Option<int>, integrationType: Option<string>, operation: Option<string>,
    inputMapping: Option<string>, outputMapping: Option<string>, condition: Option<string>,
    retryEnabled: bool, retryMaxAttempts: Option<int>, retryIntervalSeconds: Option<int>,
    retryBackoffMultiplier: Option<real>, joinPolicy: Option<string>)

  datatype EdgeRow = EdgeRow(from: int, to: int, kind: Kind)

  datatype Definition = Definition(id: int, version: int)

  const STEP_TYPES := {"platform", "service_call", "http_request", "evaluation", "gate", "schedule_execution"}

  function StoredType(s: Step): string {
    if s.stepType == None then "platform" else s.stepType.value
  }

  /** The column keeps the number a reference converts to. */
  function StoredRef(s: Step): Option<int> {
    match s.referencedActionId
    case Some(Number(n)) => Some(n)
    case Some(Convertible(n)) => Some(n)
    case _ => None
  }

  function RowFor(definition: int, s: Step): StepRow {
    StepRow(definition, s.stepId, s.order, StoredType(s), StoredRef(s), s.integrationType, s.operation,
            s.inputMapping, s.outputMapping, s.condition, s.retryEnabled, s.retryMaxAttempts.ToOption(),
            s.retryIntervalSeconds.ToOption(), s.retryBackoffMultiplier.ToOption(), s.joinPolicy)
  }

  function TargetsOf(s: Step, kind: Kind): seq<string> {
    if kind == Success then s.SuccessIds() else s.ErrorIds()
  }

  function NonEmpty(o: Option<string>): Option<string> {
    if o == Some("") then None else o
  }

  function Present<T>(o: Option<T>): Field<T> {
    if o.Some? then Is(o.value) else Missing
  }

  function ReadRef(stored: Option<int>): Option<Ref> {
    if stored.Some? then Some(Number(stored.value)) else None
  }

  /** The step document a row is turned back into, with the given branch lists. */
  function StepFor(row: StepRow, success: seq<string>, error: seq<string>): Step {
    Step(row.stepId, row.stepOrder, Some(row.stepType), ReadRef(row.referencedActionId),
         if success == [] then Missing else Is(success), if error == [] then Missing else Is(error),
         NonEmpty(row.joinPolicy), None, row.retryEnabled, Present(row.retryMaxAttempts),
         Present(row.retryIntervalSeconds), Present(row.retryBackoffMultiplier),
         NonEmpty(row.integrationType), NonEmpty(row.operation), row.inputMapping, row.outputMapping,
         NonEmpty(row.condition))
  }

  /** The ids of the steps that edges of one kind lead to, in the order of the list. */
  function Names(steps: map<int, StepRow>, list: seq<EdgeRow>, kind: Kind): seq<string> {
    if list == [] then [] else
      var init := Names(steps, list[..|list| - 1], kind);
      var e := list[|list| - 1];
      if e.kind == kind && e.to in steps then init + [steps[e.to].stepId] else init
  }

  /** list holds, once each and in any order, the edges that leave row id. */
  ghost predicate ListsEdges(edges: set<EdgeRow>, id: int, list: seq<EdgeRow>) {
    NoRepeatedEdge(list) && forall e :: e in list <==> e in edges && e.from == id
  }

  /** s is a step document for row id: its branch lists follow some order of the row's edges. */
  ghost predicate Reads(steps: map<int, StepRow>, edges: set<EdgeRow>, id: int, s: Step) {
    && id in steps
    && exists list ::
      && ListsEdges(edges, id, list)
      && s == StepFor(steps[id], Names(steps, list, Success), Names(steps, list, Error))
  }

  // ---------- what a write adds ----------

  /** Row ids in insertion order, starting at base. */
  function IdsOf(doc: seq<Step>, base: int): map<string, int> {
    if doc == [] then map[] else
      var init := IdsOf(doc[..|doc| - 1], base);
      var id := doc[|doc| - 1].stepId;
      if id == "" then init else init[id := base + |init|]
  }

  function RowsOf(d: int, doc: seq<Step>, base: int): map<int, StepRow> {
    if doc == [] then map[] else
      var init := RowsOf(d, doc[..|doc| - 1], base);
      var last := doc[|doc| - 1];
      if last.stepId == "" then init else init[base + |IdsOf(doc[..|doc| - 1], base)| := RowFor(d, last)]
  }

  /** The step table after the rows of a write have been added one by one. */
  function RowsOnto(steps0: map<int, StepRow>, d: int, doc: seq<Step>, base: int): map<int, StepRow> {
    if doc == [] then steps0 else
      var init := RowsOnto(steps0, d, doc[..|doc| - 1], base);
      var last := doc[|doc| - 1];
      if last.stepId == "" then init else init[base + |IdsOf(doc[..|doc| - 1], base)| := RowFor(d, last)]
  }

  lemma {:induction false} RowsOntoIsUnion(steps0: map<int, StepRow>, d: int, doc: seq<Step>, base: int)
    ensures RowsOnto(steps0, d, doc, base) == steps0 + RowsOf(d, doc, base)
  {
    hide RowFor;
    if doc != [] {
      RowsOntoIsUnion(steps0, d, doc[..|doc| - 1], base);
    }
  }

  function KindEdges(from: int, targets: seq<string>, ids: map<string, int>, kind: Kind): seq<EdgeRow> {
    if targets == [] then [] else
      var init := KindEdges(from, targets[..|targets| - 1], ids, kind);
      var t := targets[|targets| - 1];
      if t in ids then init + [EdgeRow(from, ids[t], kind)] else init
  }

  function StepEdges(s: Step, ids: map<string, int>): seq<EdgeRow> {
    if s.stepId !in ids then [] else
      KindEdges(ids[s.stepId], s.SuccessIds(), ids, Success) + KindEdges(ids[s.stepId], s.ErrorIds(), ids, Error)
  }

  /** The edges inserted in bulk, in order. */
  function EdgeList(doc: seq<Step>, ids: map<string, int>): seq<EdgeRow> {
    if doc == [] then [] else EdgeList(doc[..|doc| - 1], ids) + StepEdges(doc[|doc| - 1], ids)
  }

  predicate NoRepeatedEdge(edges: seq<EdgeRow>) {
    forall i, j :: 0 <= i < j < |edges| ==> edges[i] != edges[j]
  }

  /** A row the step table takes: a known type, and a reference that converts to an existing action. */
  predicate RowOk(s: Step, actions: set<int>) {
    && StoredType(s) in STEP_TYPES && s.referencedActionId != Some(Unusable)
    && (StoredRef(s).Some? ==> StoredRef(s).value in actions)
  }

  predicate RowsOk(doc: seq<Step>, actions: set<int>) {
    forall i :: 0 <= i < |doc| && doc[i].stepId != "" ==> RowOk(doc[i], actions)
  }

  /** The lists the tables can hold beside the given actions: unique ids, rows the step table takes, no known
      target repeated in one list. */
  predicate Writable(doc: seq<Step>, actions: set<int>) {
    && UniqueIds(doc) && RowsOk(doc, actions)
    && forall i :: 0 <= i < |doc| && doc[i].stepId != "" ==>
         NoDup(Known(doc[i].SuccessIds(), Lookup(doc))) && NoDup(Known(doc[i].ErrorIds(), Lookup(doc)))
  }

  ghost predicate IdsInjective(ids: map<string, int>) {
    forall u, v :: u in ids && v in ids && ids[u] == ids[v] ==> u == v
  }

  lemma {:induction false} IdsFacts(doc: seq<Step>, base: int)
    requires UniqueIds(doc)
    ensures IdsOf(doc, base).Keys == StepIds(doc)
    ensures forall u :: u in IdsOf(doc, base) ==> base <= IdsOf(doc, base)[u] < base + |IdsOf(doc, base)|
    ensures IdsInjective(IdsOf(doc, base))
  {
    if doc != [] {
      var init := doc[..|doc| - 1];
      assert doc == init + [doc[|doc| - 1]];
      UniqueSnoc(init, doc[|doc| - 1]);
      IdsFacts(init, base);
    }
  }

  /** The rows of a write: one per step, found under its id. */
  lemma {:induction false} RowsFacts(d: int, doc: seq<Step>, base: int)
    requires UniqueIds(doc)
    ensures forall u :: u in IdsOf(doc, base) ==>
      && u in Lookup(doc) && IdsOf(doc, base)[u] in RowsOf(d, doc, base)
      && RowsOf(d, doc, base)[IdsOf(doc, base)[u]] == RowFor(d, Lookup(doc)[u])
    ensures forall i :: i in RowsOf(d, doc, base) ==>
      RowsOf(d, doc, base)[i].stepId in IdsOf(doc, base) && IdsOf(doc, base)[RowsOf(d, doc, base)[i].stepId] == i
  {
    if doc != [] {
      var init, last := doc[..|doc| - 1], doc[|doc| - 1];
      assert doc == init + [last];
      UniqueSnoc(init, last);
      IdsFacts(init, base);
      RowsFacts(d, init, base);
      hide StepIds, UniqueIds;
    }
  }

  lemma {:induction false} KindEdgesMember(from: int, targets: seq<string>, ids: map<string, int>, kind: Kind,
                                           e: EdgeRow)
    ensures e in KindEdges(from, targets, ids, kind) <==>
      e.from == from && e.kind == kind && exists t :: t in targets && t in ids && ids[t] == e.to
  {
    if targets != [] {
      KindEdgesMember(from, targets[..|targets| - 1], ids, kind, e);
      assert targets == targets[..|targets| - 1] + [targets[|targets| - 1]];
    }
  }

  lemma {:induction false} EdgeListMember(doc: seq<Step>, ids: map<string, int>, e: EdgeRow)
    ensures e in EdgeList(doc, ids) <==> exists i :: 0 <= i < |doc| && e in StepEdges(doc[i], ids)
  {
    if doc != [] {
      var init := doc[..|doc| - 1];
      EdgeListMember(init, ids, e);
      assert forall i :: 0 <= i < |init| ==> init[i] == doc[i];
    }
  }

  /** An edge row joins the rows of u and v exactly when u's list of that kind names v. */
  lemma EdgesSayTargets(doc: seq<Step>, ids: map<string, int>, u: string, v: string, kind: Kind)
    requires UniqueIds(doc) && ids.Keys == StepIds(doc) && IdsInjective(ids) && u in ids && v in ids
    ensures u in Lookup(doc)
    ensures EdgeRow(ids[u], ids[v], kind) in EdgeList(doc, ids) <==> v in TargetsOf(Lookup(doc)[u], kind)
  {
    LookupSound(doc);
    var e := EdgeRow(ids[u], ids[v], kind);
    EdgeListMember(doc, ids, e);
    var k :| 0 <= k < |doc| && doc[k] == Lookup(doc)[u];
    forall i | 0 <= i < |doc|
      ensures e in StepEdges(doc[i], ids) <==> doc[i].stepId == u && v in TargetsOf(doc[i], kind)
    {
      if doc[i].stepId in ids {
        KindEdgesMember(ids[doc[i].stepId], doc[i].SuccessIds(), ids, Success, e);
        KindEdgesMember(ids[doc[i].stepId], doc[i].ErrorIds(), ids, Error, e);
      }
    }
    forall i | 0 <= i < |doc| && doc[i].stepId == u
      ensures doc[i] == doc[k]
    {
      LookupUnique(doc, i);
    }
  }

  // ---------- the unique constraint on edges ----------

  lemma NoRepeatConcat(a: seq<EdgeRow>, b: seq<EdgeRow>)
    requires forall e :: e in a ==> e !in b
    ensures NoRepeatedEdge(a + b) <==> NoRepeatedEdge(a) && NoRepeatedEdge(b)
  {
    var c := a + b;
    assert forall i :: 0 <= i < |a| ==> c[i] == a[i];
    assert forall j :: 0 <= j < |b| ==> c[|a| + j] == b[j];
    if NoRepeatedEdge(c) {
      forall i, j | 0 <= i < j < |b|
        ensures b[i] != b[j]
      {
        assert c[|a| + i] != c[|a| + j];
      }
      assert forall i, j :: 0 <= i < j < |a| ==> c[i] != c[j];
    }
    if NoRepeatedEdge(a) && NoRepeatedEdge(b) {
      forall i, j | 0 <= i < j < |c|
        ensures c[i] != c[j]
      {
        if i < |a| <= j {
          assert c[i] in a && c[j] in b;
        }
      }
    }
  }

  lemma {:induction false} KindEdgesAt(from: int, targets: seq<string>, ids: map<string, int>, kind: Kind,
                                       lookup: map<string, Step>)
    requires ids.Keys == lookup.Keys
    ensures var known := Known(targets, lookup);
            && |KindEdges(from, targets, ids, kind)| == |known|
            && forall i :: 0 <= i < |known| ==>
              known[i] in ids && KindEdges(from, targets, ids, kind)[i] == EdgeRow(from, ids[known[i]], kind)
  {
    if targets != [] {
      KindEdgesAt(from, targets[..|targets| - 1], ids, kind, lookup);
    }
  }

  lemma KindEdgesRepeat(from: int, targets: seq<string>, ids: map<string, int>, kind: Kind, lookup: map<string, Step>)
    requires ids.Keys == lookup.Keys && IdsInjective(ids)
    ensures NoRepeatedEdge(KindEdges(from, targets, ids, kind)) <==> NoDup(Known(targets, lookup))
  {
    hide KindEdges, Known;
    KindEdgesAt(from, targets, ids, kind, lookup);
    var known, edges := Known(targets, lookup), KindEdges(from, targets, ids, kind);
    if NoRepeatedEdge(edges) {
      forall i, j | 0 <= i < j < |known|
        ensures known[i] != known[j]
      {
        assert edges[i] != edges[j];
      }
    }
  }

  lemma StepEdgesRepeat(s: Step, ids: map<string, int>, lookup: map<string, Step>)
    requires ids.Keys == lookup.Keys && IdsInjective(ids) && s.stepId in ids
    ensures NoRepeatedEdge(StepEdges(s, ids)) <==>
      NoDup(Known(s.SuccessIds(), lookup)) && NoDup(Known(s.ErrorIds(), lookup))
    ensures forall e :: e in StepEdges(s, ids) ==> e.from == ids[s.stepId]
  {
    hide NoDup, NoRepeatedEdge, Known;
    var from := ids[s.stepId];
    var a, b := KindEdges(from, s.SuccessIds(), ids, Success), KindEdges(from, s.ErrorIds(), ids, Error);
    forall e
      ensures e in a ==> e.from == from && e.kind == Success
      ensures e in b ==> e.from == from && e.kind == Error
    {
      KindEdgesMember(from, s.SuccessIds(), ids, Success, e);
      KindEdgesMember(from, s.ErrorIds(), ids, Error, e);
    }
    KindEdgesRepeat(from, s.SuccessIds(), ids, Success, lookup);
    KindEdgesRepeat(from, s.ErrorIds(), ids, Error, lookup);
    NoRepeatConcat(a, b);
  }

  /** The bulk insert violates no constraint exactly when no list repeats a known target. */
  lemma {:induction false} EdgeListRepeat(doc: seq<Step>, ids: map<string, int>, lookup: map<string, Step>)
    requires UniqueIds(doc) && ids.Keys == lookup.Keys && StepIds(doc) <= ids.Keys && IdsInjective(ids) && "" !in ids
    ensures NoRepeatedEdge(EdgeList(doc, ids)) <==>
      forall i :: 0 <= i < |doc| && doc[i].stepId != "" ==>
        NoDup(Known(doc[i].SuccessIds(), lookup)) && NoDup(Known(doc[i].ErrorIds(), lookup))
    ensures forall e :: e in EdgeList(doc, ids) ==> exists u :: u in StepIds(doc) && u in ids && e.from == ids[u]
  {
    hide NoDup, Known, IdsInjective, StepEdges, UniqueIds, StepIds;
    if doc != [] {
      hide NoRepeatedEdge;
      var init, last := doc[..|doc| - 1], doc[|doc| - 1];
      assert doc == init + [last];
      UniqueSnoc(init, last);
      EdgeListRepeat(init, ids, lookup);
      assert forall i :: 0 <= i < |init| ==> init[i] == doc[i];
      if last.stepId == "" {
        NoEdges(last, ids);
        assert EdgeList(doc, ids) == EdgeList(init, ids);
      } else {
        StepEdgesRepeat(last, ids, lookup);
        forall e | e in EdgeList(init, ids)
          ensures e !in StepEdges(last, ids)
        {
          DifferentFrom(ids, last.stepId, StepIds(init), e);
        }
        NoRepeatConcat(EdgeList(init, ids), StepEdges(last, ids));
      }
    }
  }

  lemma NoEdges(s: Step, ids: map<string, int>)
    requires s.stepId !in ids
    ensures StepEdges(s, ids) == []
  {
  }

  lemma DifferentFrom(ids: map<string, int>, id: string, others: set<string>, e: EdgeRow)
    requires IdsInjective(ids) && id in ids && id !in others
    requires exists u :: u in others && u in ids && e.from == ids[u]
    ensures e.from != ids[id]
  {
  }

  // ---------- the tables ----------

  class DefinitionTables {
    var definitions: map<int, Definition>
    var steps: map<int, StepRow>
    var edges: set<EdgeRow>
    /** The ids in the actions table, which steps refer to. */
    var actions: set<int>
    /** The next identity value; one sequence serves all tables. */
    var nextId: int

    ghost predicate Valid()
      reads this
    {
      && (forall a :: a in definitions ==> definitions[a].id < nextId)
      && (forall a, b :: a in definitions && b in definitions && a != b ==> definitions[a].id != definitions[b].id)
      && (forall i :: i in steps ==> i < nextId)
      && (forall e :: e in edges ==> e.from in steps && e.to in steps)
    }

    constructor (actions: set<int>)
      ensures Valid() && definitions == map[] && steps == map[] && edges == {} && this.actions == actions
    {
      definitions, steps, edges, nextId := map[], map[], {}, 1;
      this.actions := actions;
    }

    /** Deletes the step rows of a definition; their edges go with them. */
    method DeleteSteps(d: int)
      requires Valid()
      modifies `steps, `edges
      ensures Valid()
      ensures steps == KeptSteps(old(steps), d) && edges == KeptEdges(old(steps), old(edges), d)
    {
      edges := KeptEdges(steps, edges, d);
      steps := KeptSteps(steps, d);
    }

    /** Inserts one row per step that has an id. False: a constraint of the table rejects a row. */
    method InsertSteps(d: int, doc: seq<Step>) returns (ok: bool, rowOf: map<string, int>)
      modifies `steps, `nextId
      ensures ok <==> UniqueIds(doc) && RowsOk(doc, actions)
      ensures nextId >= old(nextId)
      ensures ok ==> rowOf == IdsOf(doc, old(nextId)) && nextId == old(nextId) + |rowOf|
      ensures ok ==> steps == RowsOnto(old(steps), d, doc, old(nextId))
    {
      hide *;
      rowOf, ok := map[], true;
      NothingInserted(steps, d, nextId, actions);
      ghost var base, steps0 := nextId, steps;
      for k := 0 to |doc|
        invariant ok && UniqueIds(doc[..k]) && RowsOk(doc[..k], actions)
        invariant rowOf == IdsOf(doc[..k], base) && nextId == base + |rowOf|
        invariant steps == RowsOnto(steps0, d, doc[..k], base)
      {
        var id := doc[k].stepId;
        if id == "" {
          SkipRow(d, doc, k, base, steps0, actions);
        } else {
          OneMoreRow(d, doc, k, base, steps0, actions);
          if id in rowOf || !RowOk(doc[k], actions) {
            PrefixBreaks(doc, k + 1, actions);
            return false, rowOf;
          }
          steps := steps[nextId := RowFor(d, doc[k])];
          rowOf := rowOf[id := nextId];
          nextId := nextId + 1;
        }
      }
      assert doc[..|doc|] == doc;
    }

    /** Collects the edges of every step whose ids both have rows. */
    method CollectEdges(doc: seq<Step>, rowOf: map<string, int>) returns (list: seq<EdgeRow>)
      ensures list == EdgeList(doc, rowOf)
    {
      list := [];
      for i := 0 to |doc|
        invariant list == EdgeList(doc[..i], rowOf)
      {
        assert doc[..i + 1][..i] == doc[..i];
        if doc[i].stepId in rowOf {
          var success := CollectKind(rowOf[doc[i].stepId], doc[i].SuccessIds(), rowOf, Success);
          var error := CollectKind(rowOf[doc[i].stepId], doc[i].ErrorIds(), rowOf, Error);
          list := list + (success + error);
        }
      }
      assert doc[..|doc|] == doc;
    }

    method CollectKind(from: int, targets: seq<string>, rowOf: map<string, int>,
                       kind: Kind) returns (list: seq<EdgeRow>)
      ensures list == KindEdges(from, targets, rowOf, kind)
    {
      list := [];
      for k := 0 to |targets|
        invariant list == KindEdges(from, targets[..k], rowOf, kind)
      {
        assert targets[..k + 1][..k] == targets[..k];
        if targets[k] in rowOf {
          list := list + [EdgeRow(from, rowOf[targets[k]], kind)];
        }
      }
      assert targets[..|targets|] == targets;
    }

    /** Replaces the rows of definition d by those of doc. False: a constraint is violated. */
    method ReplaceRows(d: int, doc: seq<Step>) returns (ok: bool)
      requires Valid()
      modifies `steps, `edges, `nextId
      ensures ok <==> Writable(doc, actions)
      ensures nextId >= old(nextId)
      ensures ok ==> nextId == old(nextId) + |IdsOf(doc, old(nextId))|
      ensures ok ==> Written(old(steps), old(edges), d, doc, old(nextId), steps, edges)
    {
      hide UniqueIds, RowsOk, IdsOf, RowsOf, RowsOnto, EdgeList, NoRepeatedEdge, KeptSteps, KeptEdges, StepIds,
           Lookup, NoDup, Known;
      DeleteSteps(d);
      ghost var base, kept := nextId, steps;
      var inserted, rowOf := InsertSteps(d, doc);
      if !inserted {
        return false;
      }
      RowsOntoIsUnion(kept, d, doc, base);
      var list := CollectEdges(doc, rowOf);
      RowIdsFit(doc, base);
      EdgeListRepeat(doc, rowOf, Lookup(doc));
      if !NoRepeatedEdge(list) {
        return false;
      }
      edges := edges + set e | e in list;
      ok := true;
    }

    /** The definition row of an action, created at version 1 or updated: update_or_create resets
        the version to 1, so the increment after it always gives 2. */
    method UpsertDefinition(action: int) returns (d: int)
      requires Valid()
      modifies `definitions, `nextId
      ensures Valid() && nextId >= old(nextId)
      ensures d == if action in old(definitions) then old(definitions)[action].id else old(nextId)
      ensures definitions == old(definitions)[action := Definition(d, if action in old(definitions) then 2 else 1)]
    {
      if action in definitions {
        d := definitions[action].id;
        definitions := definitions[action := Definition(d, 1)];
        definitions := definitions[action := Definition(d, definitions[action].version + 1)];
      } else {
        d := nextId;
        definitions := definitions[action := Definition(d, 1)];
        nextId := nextId + 1;
      }
    }

    /** The step list the tables hold for an action, in step order; ties and edges in any order. */
    method GetStepsFromNormalized(action: int) returns (doc: seq<Step>, ghost rowIds: seq<int>)
      requires Valid()
      ensures action !in definitions ==> doc == []
      ensures action in definitions ==>
        ReadsAll(steps, edges, RowsOfDefinition(steps, definitions[action].id), doc, rowIds)
    {
      if action !in definitions {
        return [], [];
      }
      var d := definitions[action].id;
      var mine := set e | e in edges && steps[e.from].definition == d;
      var grouped := GroupByFrom(mine);
      var rest := RowsOfDefinition(steps, d);
      ghost var all := rest;
      doc, rowIds := [], [];
      while rest != {}
        invariant rest <= all && ReadsAll(steps, edges, all - rest, doc, rowIds) && NotAfter(steps, rest, doc)
        decreases rest
      {
        hide ReadsAll, NotAfter, Names, StepFor, Reads;
        LeastOrder(steps, rest);
        var i :| i in rest && forall j :: j in rest ==> steps[i].stepOrder <= steps[j].stepOrder;
        var list := ListAt(grouped, i);
        var step := StepFor(steps[i], Names(steps, list, Success), Names(steps, list, Error));
        assert ListsEdges(mine, i, list);
        ReadOneMore(steps, edges, all, rest, doc, rowIds, i, list);
        rest := rest - {i};
        doc, rowIds := doc + [step], rowIds + [i];
      }
      assert all - rest == all;
    }

    /** Replaces what the tables hold for an action by doc, inside one transaction.
        False: a constraint is violated and the transaction is rolled back. */
    method SyncFromJson(action: int, doc: seq<Step>) returns (ok: bool)
      requires Valid()
      modifies `definitions, `steps, `edges, `nextId
      ensures Valid()
      ensures ok <==> doc == [] || Writable(doc, actions)
      ensures !ok ==> definitions == old(definitions) && steps == old(steps) && edges == old(edges)
      ensures ok && doc == [] ==> definitions == old(definitions) - {action}
      ensures ok && doc == [] && action !in old(definitions) ==> steps == old(steps) && edges == old(edges)
      ensures ok && doc == [] && action in old(definitions) ==>
        && steps == KeptSteps(old(steps), old(definitions)[action].id)
        && edges == KeptEdges(old(steps), old(edges), old(definitions)[action].id)
      ensures ok && doc != [] ==>
        var d := if action in old(definitions) then old(definitions)[action].id else old(nextId);
        && definitions == old(definitions)[action := Definition(d, if action in old(definitions) then 2 else 1)]
        && exists base :: base >= old(nextId) && Written(old(steps), old(edges), d, doc, base, steps, edges)
    {
      hide UniqueIds, RowsOk, NoDup, Known, Lookup, Written, KeptSteps, KeptEdges;
      if doc == [] {
        if action in definitions {
          var d := definitions[action].id;
          definitions := definitions - {action};
          DeleteSteps(d);
        }
        return true;
      }
      var definitions0, steps0, edges0 := definitions, steps, edges;
      var d := UpsertDefinition(action);
      ghost var base := nextId;
      ok := ReplaceRows(d, doc);
      if ok {
        WrittenIsConsistent(steps0, edges0, d, doc, base, steps, edges, nextId);
      } else {
        definitions, steps, edges := definitions0, steps0, edges0;
      }
    }
  }

  function RowsOfDefinition(steps: map<int, StepRow>, d: int): set<int> {
    set i | i in steps && steps[i].definition == d
  }

  /** doc lists each of these rows once, by step order. */
  ghost predicate ReadsAll(steps: map<int, StepRow>, edges: set<EdgeRow>, ids: set<int>, doc: seq<Step>,
                           rowIds: seq<int>) {
    && |doc| == |rowIds|
    && (forall i :: i in rowIds <==> i in ids)
    && (forall j, k :: 0 <= j < k < |rowIds| ==> rowIds[j] != rowIds[k] && doc[j].order <= doc[k].order)
    && (forall k :: 0 <= k < |doc| ==> Reads(steps, edges, rowIds[k], doc[k]))
  }

  ghost predicate NotAfter(steps: map<int, StepRow>, ids: set<int>, doc: seq<Step>) {
    forall k, i :: 0 <= k < |doc| && i in ids ==> i in steps && doc[k].order <= steps[i].stepOrder
  }

  lemma ReadOneMore(steps: map<int, StepRow>, edges: set<EdgeRow>, all: set<int>, rest: set<int>,
                    doc: seq<Step>, rowIds: seq<int>, i: int, list: seq<EdgeRow>)
    requires rest <= all <= steps.Keys && i in rest && ReadsAll(steps, edges, all - rest, doc, rowIds)
      && NotAfter(steps, rest, doc)
    requires forall j :: j in rest ==> steps[i].stepOrder <= steps[j].stepOrder
    requires ListsEdges(edges, i, list)
    ensures var s := StepFor(steps[i], Names(steps, list, Success), Names(steps, list, Error));
            && ReadsAll(steps, edges, all - (rest - {i}), doc + [s], rowIds + [i])
            && NotAfter(steps, rest - {i}, doc + [s])
  {
    hide Names, ListsEdges;
    var s := StepFor(steps[i], Names(steps, list, Success), Names(steps, list, Error));
    assert Reads(steps, edges, i, s);
    hide Reads;
    var doc', rowIds' := doc + [s], rowIds + [i];
    forall k | 0 <= k < |doc'|
      ensures Reads(steps, edges, rowIds'[k], doc'[k])
    {
      if k < |doc| {
        assert Reads(steps, edges, rowIds[k], doc[k]);
      }
    }
    assert forall j :: j in rowIds' <==> j in rowIds || j == i;
  }

  lemma Pick(ids: set<int>) returns (k: int)
    requires ids != {}
    ensures k in ids
  {
    if forall j :: j !in ids {
      assert false;
    }
    k :| k in ids;
  }

  lemma {:induction false} LeastOrder(steps: map<int, StepRow>, ids: set<int>)
    requires ids != {} && ids <= steps.Keys
    ensures exists i :: i in ids && forall j :: j in ids ==> steps[i].stepOrder <= steps[j].stepOrder
    decreases |ids|
  {
    var k := Pick(ids);
    if ids == {k} {
      assert forall j :: j in ids ==> steps[k].stepOrder <= steps[j].stepOrder;
    } else {
      assert ids - {k} != {};
      LeastOrder(steps, ids - {k});
      var i :| i in ids - {k} && forall j :: j in ids - {k} ==> steps[i].stepOrder <= steps[j].stepOrder;
      var least := if steps[k].stepOrder < steps[i].stepOrder then k else i;
      assert forall j :: j in ids ==> steps[least].stepOrder <= steps[j].stepOrder;
    }
  }

  function ListAt(grouped: map<int, seq<EdgeRow>>, id: int): seq<EdgeRow> {
    if id in grouped then grouped[id] else []
  }

  method GroupByFrom(edges: set<EdgeRow>) returns (grouped: map<int, seq<EdgeRow>>)
    ensures forall id :: ListsEdges(edges, id, ListAt(grouped, id))
  {
    grouped := map[];
    var rest := edges;
    while rest != {}
      invariant rest <= edges
      invariant forall id :: ListsEdges(edges - rest, id, ListAt(grouped, id))
    {
      var e :| e in rest;
      ghost var before := grouped;
      assert ListsEdges(edges - rest, e.from, ListAt(grouped, e.from));
      grouped := grouped[e.from := ListAt(grouped, e.from) + [e]];
      rest := rest - {e};
      forall id
        ensures ListsEdges(edges - rest, id, ListAt(grouped, id))
      {
        assert ListsEdges(edges - rest - {e}, id, ListAt(before, id)) by {
          assert edges - rest - {e} == edges - (rest + {e});
        }
      }
    }
    assert edges - rest == edges;
  }

  function KeptSteps(steps: map<int, StepRow>, d: int): map<int, StepRow> {
    map i | i in steps && steps[i].definition != d :: steps[i]
  }

  function KeptEdges(steps: map<int, StepRow>, edges: set<EdgeRow>, d: int): set<EdgeRow> {
    set e | e in edges && e.from in KeptSteps(steps, d) && e.to in KeptSteps(steps, d)
  }

  /** The tables after doc has been written for definition d, its rows numbered from base. */
  ghost predicate Written(steps0: map<int, StepRow>, edges0: set<EdgeRow>, d: int, doc: seq<Step>, base: int,
                          steps: map<int, StepRow>, edges: set<EdgeRow>) {
    && steps == KeptSteps(steps0, d) + RowsOf(d, doc, base)
    && edges == KeptEdges(steps0, edges0, d) + set e | e in EdgeList(doc, IdsOf(doc, base))
  }

  /** The ids of a write are the ids of the document, one row each. */
  lemma RowIdsFit(doc: seq<Step>, base: int)
    requires UniqueIds(doc)
    ensures var ids := IdsOf(doc, base);
            ids.Keys == StepIds(doc) == Lookup(doc).Keys && IdsInjective(ids) && "" !in ids
  {
    IdsFacts(doc, base);
    LookupSound(doc);
    StepIdsMember(doc, "");
  }

  /** After a write every row number is used up and every edge joins two rows. */
  lemma WrittenIsConsistent(steps0: map<int, StepRow>, edges0: set<EdgeRow>, d: int, doc: seq<Step>, base: int,
                            steps: map<int, StepRow>, edges: set<EdgeRow>, next: int)
    requires UniqueIds(doc) && Written(steps0, edges0, d, doc, base, steps, edges)
    requires next == base + |IdsOf(doc, base)|
    requires forall i :: i in steps0 ==> i < base
    ensures forall i :: i in steps ==> i < next
    ensures forall e :: e in edges ==> e.from in steps && e.to in steps
  {
    hide NoDup, Known, RowFor, UniqueIds, StepIds, Lookup;
    IdsFacts(doc, base);
    RowsFacts(d, doc, base);
    forall e | e in EdgeList(doc, IdsOf(doc, base))
      ensures e.from in RowsOf(d, doc, base) && e.to in RowsOf(d, doc, base)
    {
      EdgeEnds(doc, IdsOf(doc, base), e);
    }
  }

  lemma EdgeEnds(doc: seq<Step>, ids: map<string, int>, e: EdgeRow)
    requires e in EdgeList(doc, ids)
    ensures exists u :: u in ids && ids[u] == e.from
    ensures exists v :: v in ids && ids[v] == e.to
  {
    EdgeListMember(doc, ids, e);
    var i :| 0 <= i < |doc| && e in StepEdges(doc[i], ids);
    KindEdgesMember(ids[doc[i].stepId], doc[i].SuccessIds(), ids, Success, e);
    KindEdgesMember(ids[doc[i].stepId], doc[i].ErrorIds(), ids, Error, e);
  }

  lemma NothingInserted(steps0: map<int, StepRow>, d: int, base: int, actions: set<int>)
    ensures IdsOf([], base) == map[] && RowsOnto(steps0, d, [], base) == steps0 && StepIds([]) == {} && UniqueIds([])
      && RowsOk([], actions)
  {
  }

  /** A step without an id adds nothing to a write. */
  lemma SkipRow(d: int, doc: seq<Step>, k: nat, base: int, steps0: map<int, StepRow>, actions: set<int>)
    requires k < |doc| && UniqueIds(doc[..k]) && RowsOk(doc[..k], actions) && doc[k].stepId == ""
    ensures IdsOf(doc[..k + 1], base) == IdsOf(doc[..k], base)
      && RowsOnto(steps0, d, doc[..k + 1], base) == RowsOnto(steps0, d, doc[..k], base)
    ensures UniqueIds(doc[..k + 1]) && RowsOk(doc[..k + 1], actions)
  {
    hide RowFor, RowOk, UniqueIds, StepIds;
    assert doc[..k + 1] == doc[..k] + [doc[k]] && doc[..k + 1][..k] == doc[..k];
    UniqueSnoc(doc[..k], doc[k]);
    StepIdsMember(doc[..k], "");
    RowsSnoc(doc[..k], doc[k], actions);
  }

  /** What a step with an id adds to a write. */
  lemma OneMoreRow(d: int, doc: seq<Step>, k: nat, base: int, steps0: map<int, StepRow>, actions: set<int>)
    requires k < |doc| && UniqueIds(doc[..k]) && RowsOk(doc[..k], actions) && doc[k].stepId != ""
    ensures var id, ids := doc[k].stepId, IdsOf(doc[..k], base);
            && IdsOf(doc[..k + 1], base) == ids[id := base + |ids|]
            && RowsOnto(steps0, d, doc[..k + 1], base) ==
              RowsOnto(steps0, d, doc[..k], base)[base + |ids| := RowFor(d, doc[k])]
            && (UniqueIds(doc[..k + 1]) && RowsOk(doc[..k + 1], actions) <==> id !in ids && RowOk(doc[k], actions))
            && (id !in ids ==> |ids[id := base + |ids|]| == |ids| + 1)
  {
    hide RowFor, RowOk, UniqueIds, StepIds;
    assert doc[..k + 1] == doc[..k] + [doc[k]] && doc[..k + 1][..k] == doc[..k];
    UniqueSnoc(doc[..k], doc[k]);
    RowsSnoc(doc[..k], doc[k], actions);
    IdsFacts(doc[..k], base);
  }

  lemma RowsSnoc(doc: seq<Step>, s: Step, actions: set<int>)
    ensures RowsOk(doc + [s], actions) <==> RowsOk(doc, actions) && (s.stepId != "" ==> RowOk(s, actions))
  {
    var longer := doc + [s];
    assert forall i :: 0 <= i < |doc| ==> longer[i] == doc[i];
    assert longer[|doc|] == s;
  }

  /** What a prefix violates the whole list violates. */
  lemma PrefixBreaks(doc: seq<Step>, k: nat, actions: set<int>)
    requires k <= |doc| && !(UniqueIds(doc[..k]) && RowsOk(doc[..k], actions))
    ensures !(UniqueIds(doc) && RowsOk(doc, actions))
  {
    assert forall i :: 0 <= i < k ==> doc[..k][i] == doc[i];
  }
}
