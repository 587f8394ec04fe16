/** What a write leaves in the normalised tables, row by row and edge by edge, and what the tables refuse. */
module StoreTables {
  import opened Workflow
  import opened Routing
  import opened DefinitionStore
  import opened StoreRoundTrip

  // ---------- the rows ----------

  predicate Keeps<T(==)>(value: Field<T>, stored: Option<T>) {
    match value
    case Is(v) => stored == Some(v)
    case _ => stored == None
  }

  /** The row says what the step says: a missing type is platform, a reference the number it converts to. */
  predicate RowSays(row: StepRow, d: int, s: Step) {
    && row.definition == d && row.stepId == s.stepId && row.stepOrder == s.order
    && (match s.stepType case None => row.stepType == "platform" case Some(t) => row.stepType == t)
    && (match s.referencedActionId
        case Some(Number(n)) => row.referencedActionId == Some(n)
        case Some(Convertible(n)) => row.referencedActionId == Some(n)
        case _ => row.referencedActionId == None)
    && row.integrationType == s.integrationType && row.operation == s.operation
    && row.inputMapping == s.inputMapping && row.outputMapping == s.outputMapping && row.condition == s.condition
    && row.retryEnabled == s.retryEnabled && Keeps(s.retryMaxAttempts, row.retryMaxAttempts)
    && Keeps(s.retryIntervalSeconds, row.retryIntervalSeconds)
    && Keeps(s.retryBackoffMultiplier, row.retryBackoffMultiplier) && row.joinPolicy == s.joinPolicy
  }

  lemma RowForSays(row: StepRow, d: int, s: Step)
    ensures RowSays(row, d, s) <==> row == RowFor(d, s)
  {
  }

  /** Row i is the row of step k of the list. */
  ghost predicate IsRowOf(steps: map<int, StepRow>, d: int, doc: seq<Step>, k: int, i: int) {
    0 <= k < |doc| && doc[k].stepId != "" && i in steps && RowSays(steps[i], d, doc[k])
  }

  predicate SameId(a: StepRow, b: StepRow, d: int) {
    a.definition == d && b.definition == d && a.stepId == b.stepId
  }

  /** The definition's rows are those of the steps that have an id, one each; the other rows are as they were. */
  ghost predicate RowsTell(steps0: map<int, StepRow>, d: int, doc: seq<Step>, steps: map<int, StepRow>) {
    && (forall i :: i in steps && steps[i].definition == d ==> exists k :: IsRowOf(steps, d, doc, k, i))
    && (forall k :: 0 <= k < |doc| && doc[k].stepId != "" ==> exists i :: IsRowOf(steps, d, doc, k, i))
    && (forall i, j :: i in steps && j in steps && SameId(steps[i], steps[j], d) ==> i == j)
    && (forall i :: i in steps0 && steps0[i].definition != d ==> i in steps && steps[i] == steps0[i])
    && (forall i :: i in steps && steps[i].definition != d ==> i in steps0 && steps0[i] == steps[i])
  }

  // ---------- the edges ----------

  predicate ListNames(s: Step, kind: Kind, t: string) {
    match kind
    case Success => s.onSuccess.Is? && t in s.onSuccess.value
    case Error => s.onError.Is? && t in s.onError.value
  }

  predicate JoinsOthers(steps: map<int, StepRow>, d: int, e: EdgeRow) {
    e.from in steps && e.to in steps && steps[e.from].definition != d && steps[e.to].definition != d
  }

  predicate JoinsOwn(steps: map<int, StepRow>, d: int, e: EdgeRow) {
    e.from in steps && e.to in steps && steps[e.from].definition == d && steps[e.to].definition == d
  }

  /** No edge joins a row of this definition to another's; those inside it are what the branch lists say, the others as
      before. */
  ghost predicate EdgesTell(steps0: map<int, StepRow>, edges0: set<EdgeRow>, d: int, doc: seq<Step>,
                            steps: map<int, StepRow>, edges: set<EdgeRow>) {
    && (forall k, l, i, j, kind :: IsRowOf(steps, d, doc, k, i) && IsRowOf(steps, d, doc, l, j) ==>
        (EdgeRow(i, j, kind) in edges <==> ListNames(doc[k], kind, doc[l].stepId)))
    && (forall e :: JoinsOthers(steps, d, e) ==> (e in edges <==> e in edges0))
    && (forall e :: e in edges ==> JoinsOthers(steps, d, e) || JoinsOwn(steps, d, e))
  }

  lemma OwnRow(d: int, doc: seq<Step>, base: int, steps: map<int, StepRow>, edges: set<EdgeRow>, k: int, i: int)
    requires UniqueIds(doc) && FreshlyWritten(d, doc, base, steps, edges) && 0 <= k < |doc| && doc[k].stepId != ""
    ensures IsRowOf(steps, d, doc, k, i) <==> doc[k].stepId in IdsOf(doc, base) && i == IdsOf(doc, base)[doc[k].stepId]
    ensures doc[k].stepId in IdsOf(doc, base)
  {
    hide RowFor, UniqueIds, Lookup, StepIds, EdgeList, IdsOf, RowSays, FreshlyWritten;
    OwnRows(d, doc, base, steps, edges);
    IdsFacts(doc, base);
    StepIdsMember(doc, doc[k].stepId);
    LookupUnique(doc, k);
    if i in steps {
      RowForSays(steps[i], d, doc[k]);
      RowDefinition(d, doc[k]);
    }
  }

  lemma RowsWritten(steps0: map<int, StepRow>, edges0: set<EdgeRow>, d: int, doc: seq<Step>, base: int,
                    steps: map<int, StepRow>, edges: set<EdgeRow>)
    requires UniqueIds(doc) && Written(steps0, edges0, d, doc, base, steps, edges) && forall i :: i in steps0 ==>
      i < base
    ensures RowsTell(steps0, d, doc, steps)
  {
    hide RowFor, UniqueIds, Lookup, StepIds, EdgeList, IdsOf, RowsOf, IsRowOf, Written;
    assert FreshlyWritten(d, doc, base, steps, edges);
    OwnRows(d, doc, base, steps, edges);
    IdsFacts(doc, base);
    forall i | i in steps && steps[i].definition == d
      ensures exists k :: IsRowOf(steps, d, doc, k, i)
    {
      StepIdsMember(doc, steps[i].stepId);
      var k :| 0 <= k < |doc| && doc[k].stepId == steps[i].stepId;
      OwnRow(d, doc, base, steps, edges, k, i);
    }
    forall k | 0 <= k < |doc| && doc[k].stepId != ""
      ensures exists i :: IsRowOf(steps, d, doc, k, i)
    {
      OwnRow(d, doc, base, steps, edges, k, 0);
      OwnRow(d, doc, base, steps, edges, k, IdsOf(doc, base)[doc[k].stepId]);
    }
    OthersKept(steps0, edges0, d, doc, base, steps, edges);
  }

  /** Rows of other definitions are neither added nor changed. */
  lemma OthersKept(steps0: map<int, StepRow>, edges0: set<EdgeRow>, d: int, doc: seq<Step>, base: int,
                   steps: map<int, StepRow>, edges: set<EdgeRow>)
    requires UniqueIds(doc) && Written(steps0, edges0, d, doc, base, steps, edges) && forall i :: i in steps0 ==>
      i < base
    ensures forall i :: i in steps0 && steps0[i].definition != d ==> i in steps && steps[i] == steps0[i]
    ensures forall i :: i in steps && steps[i].definition != d ==> i in steps0 && steps0[i] == steps[i]
  {
    hide RowFor, UniqueIds, Lookup, StepIds, EdgeList, IdsOf;
    IdsFacts(doc, base);
    RowsFacts(d, doc, base);
    forall i | i in RowsOf(d, doc, base)
      ensures RowsOf(d, doc, base)[i].definition == d && i >= base
    {
      RowDefinition(d, Lookup(doc)[RowsOf(d, doc, base)[i].stepId]);
    }
  }

  lemma EdgesWritten(steps0: map<int, StepRow>, edges0: set<EdgeRow>, d: int, doc: seq<Step>, base: int,
                     steps: map<int, StepRow>, edges: set<EdgeRow>)
    requires UniqueIds(doc) && Written(steps0, edges0, d, doc, base, steps, edges) && forall i :: i in steps0 ==>
      i < base
    ensures EdgesTell(steps0, edges0, d, doc, steps, edges)
  {
    hide RowFor, UniqueIds, Lookup, StepIds, EdgeList, IdsOf, RowsOf, RowSays, Written, JoinsOwn, JoinsOthers,
      ListNames;
    assert FreshlyWritten(d, doc, base, steps, edges);
    forall k, l, i, j, kind | IsRowOf(steps, d, doc, k, i) && IsRowOf(steps, d, doc, l, j)
      ensures EdgeRow(i, j, kind) in edges <==> ListNames(doc[k], kind, doc[l].stepId)
    {
      RowInside(steps, d, doc, k, i);
      RowInside(steps, d, doc, l, j);
      OwnEdge(d, doc, base, steps, edges, k, l, i, j, kind);
    }
    forall e
      ensures JoinsOthers(steps, d, e) ==> (e in edges <==> e in edges0)
      ensures e in edges ==> JoinsOthers(steps, d, e) || JoinsOwn(steps, d, e)
    {
      EdgeStays(steps0, edges0, d, doc, base, steps, edges, e);
    }
  }

  lemma RowInside(steps: map<int, StepRow>, d: int, doc: seq<Step>, k: int, i: int)
    requires IsRowOf(steps, d, doc, k, i)
    ensures 0 <= k < |doc| && doc[k].stepId != ""
  {
  }

  lemma OwnEdge(d: int, doc: seq<Step>, base: int, steps: map<int, StepRow>, edges: set<EdgeRow>, k: int, l: int,
                i: int, j: int, kind: Kind)
    requires UniqueIds(doc) && FreshlyWritten(d, doc, base, steps, edges)
    requires 0 <= k < |doc| && doc[k].stepId != "" && 0 <= l < |doc| && doc[l].stepId != ""
    requires IsRowOf(steps, d, doc, k, i) && IsRowOf(steps, d, doc, l, j)
    ensures EdgeRow(i, j, kind) in edges <==> ListNames(doc[k], kind, doc[l].stepId)
  {
    hide RowFor, UniqueIds, Lookup, StepIds, EdgeList, IdsOf, IsRowOf, FreshlyWritten;
    OwnRow(d, doc, base, steps, edges, k, i);
    OwnRow(d, doc, base, steps, edges, l, j);
    IdsFacts(doc, base);
    OwnEdges(d, doc, base, steps, edges, EdgeRow(i, j, kind));
    EdgesSayTargets(doc, IdsOf(doc, base), doc[k].stepId, doc[l].stepId, kind);
    LookupUnique(doc, k);
    assert kind == Success || kind == Error;
  }

  lemma EdgeStays(steps0: map<int, StepRow>, edges0: set<EdgeRow>, d: int, doc: seq<Step>, base: int,
                  steps: map<int, StepRow>, edges: set<EdgeRow>, e: EdgeRow)
    requires UniqueIds(doc) && Written(steps0, edges0, d, doc, base, steps, edges) && forall i :: i in steps0 ==>
      i < base
    ensures JoinsOthers(steps, d, e) ==> (e in edges <==> e in edges0)
    ensures e in edges ==> JoinsOthers(steps, d, e) || JoinsOwn(steps, d, e)
  {
    hide RowFor, UniqueIds, Lookup, StepIds, EdgeList, IdsOf;
    OthersKept(steps0, edges0, d, doc, base, steps, edges);
    IdsFacts(doc, base);
    RowsFacts(d, doc, base);
    if e in EdgeList(doc, IdsOf(doc, base)) {
      EdgeEnds(doc, IdsOf(doc, base), e);
      RowDefinition(d, Lookup(doc)[RowsOf(d, doc, base)[e.from].stepId]);
      RowDefinition(d, Lookup(doc)[RowsOf(d, doc, base)[e.to].stepId]);
    }
  }

  /** A write leaves exactly the rows and edges its list asks for, and the other definitions as they were. */
  lemma WrittenTells(steps0: map<int, StepRow>, edges0: set<EdgeRow>, d: int, doc: seq<Step>, base: int,
                     steps: map<int, StepRow>, edges: set<EdgeRow>)
    requires UniqueIds(doc) && Written(steps0, edges0, d, doc, base, steps, edges) && forall i :: i in steps0 ==>
      i < base
    ensures RowsTell(steps0, d, doc, steps) && EdgesTell(steps0, edges0, d, doc, steps, edges)
  {
    hide UniqueIds, Written, RowsTell, EdgesTell;
    RowsWritten(steps0, edges0, d, doc, base, steps, edges);
    EdgesWritten(steps0, edges0, d, doc, base, steps, edges);
  }

  /** Deleting a definition's rows takes its edges with them, and nothing else. */
  lemma DeletedTells(steps0: map<int, StepRow>, edges0: set<EdgeRow>, d: int)
    requires forall e :: e in edges0 ==> e.from in steps0 && e.to in steps0
    ensures var steps, edges := KeptSteps(steps0, d), KeptEdges(steps0, edges0, d);
            && RowsTell(steps0, d, [], steps)
            && (forall e :: e in edges <==> e in edges0 && JoinsOthers(steps0, d, e))
  {
  }

  // ---------- what the tables refuse ----------

  predicate TakesType(s: Step) {
    match s.stepType
    case None => true
    case Some(t) =>
      || t == "platform" || t == "service_call" || t == "http_request" || t == "evaluation" || t == "gate"
      || t == "schedule_execution"
  }

  predicate TakesReference(s: Step, actions: set<int>) {
    match s.referencedActionId
    case None => true
    case Some(Number(n)) => n in actions
    case Some(Convertible(n)) => n in actions
    case Some(Unusable) => false
  }

  /** Two places of one list name the same step. */
  ghost predicate Repeats(doc: seq<Step>, ids: seq<string>) {
    exists i, j :: 0 <= i < j < |ids| && ids[i] == ids[j] && NamesStep(doc, ids[i])
  }

  predicate NamesStep(doc: seq<Step>, id: string) {
    id != "" && exists k :: 0 <= k < |doc| && doc[k].stepId == id
  }

  ghost predicate Takes(doc: seq<Step>, actions: set<int>) {
    && (forall i, j :: 0 <= i < j < |doc| && doc[i].stepId != "" ==> doc[i].stepId != doc[j].stepId)
    && (forall i :: 0 <= i < |doc| && doc[i].stepId != "" ==>
        && TakesType(doc[i]) && TakesReference(doc[i], actions)
        && !Repeats(doc, doc[i].SuccessIds()) && !Repeats(doc, doc[i].ErrorIds()))
  }

  lemma RepeatsLonger(doc: seq<Step>, ids: seq<string>)
    requires ids != []
    ensures var n := |ids| - 1;
            Repeats(doc, ids) <==> Repeats(doc, ids[..n]) || (ids[n] in ids[..n] && NamesStep(doc, ids[n]))
  {
    hide NamesStep;
    var n := |ids| - 1;
    var init, last := ids[..n], ids[n];
    if last in init && NamesStep(doc, last) {
      var i :| 0 <= i < n && init[i] == last;
      assert ids[i] == ids[n];
    }
    if i, j :| 0 <= i < j < n && init[i] == init[j] && NamesStep(doc, init[i]) {
      assert ids[i] == ids[j];
    }
    if i, j :| 0 <= i < j < |ids| && ids[i] == ids[j] && NamesStep(doc, ids[i]) {
      assert init[i] == ids[i] && (j < n ==> init[j] == ids[j]);
    }
  }

  lemma NoDupLonger(known: seq<string>, last: string)
    ensures NoDup(known + [last]) <==> NoDup(known) && last !in known
  {
    var longer := known + [last];
    assert forall i :: 0 <= i < |known| ==> longer[i] == known[i];
    if last in known {
      var a :| 0 <= a < |known| && known[a] == last;
      assert longer[a] == longer[|known|];
    }
  }

  lemma {:induction false} RepeatsIff(doc: seq<Step>, ids: seq<string>)
    ensures Repeats(doc, ids) <==> !NoDup(Known(ids, Lookup(doc)))
  {
    if ids != [] {
      hide NoDup, Repeats, Lookup, StepIds;
      var n := |ids| - 1;
      var init, last := ids[..n], ids[n];
      RepeatsIff(doc, init);
      RepeatsLonger(doc, ids);
      KnownMember(init, Lookup(doc), last);
      LookupSound(doc);
      StepIdsMember(doc, last);
      NoDupLonger(Known(init, Lookup(doc)), last);
    }
  }

  /** The tables take a list exactly when its ids differ, its types are known, its references exist and no list repeats
      a step. */
  lemma TakesIff(doc: seq<Step>, actions: set<int>)
    ensures Writable(doc, actions) <==> Takes(doc, actions)
  {
    hide NoDup, Known, Lookup, Repeats;
    forall ids: seq<string>
      ensures Repeats(doc, ids) <==> !NoDup(Known(ids, Lookup(doc)))
    {
      RepeatsIff(doc, ids);
    }
    forall s: Step
      ensures RowOk(s, actions) <==> TakesType(s) && TakesReference(s, actions)
    {
    }
    hide RowOk, TakesType, TakesReference;
  }
}
