/** Writing a step list to the normalised tables and reading it back: what is kept and what is not. */
module StoreRoundTrip {
  import opened Workflow
  import opened Routing
  import opened DefinitionStore

  /** back lists, once each and in any order, those of the ids that name a step of doc. */
  ghost predicate SameTargets(doc: seq<Step>, ids: seq<string>, back: seq<string>) {
    NoDup(back) && forall v :: v in back <==> v in ids && v in StepIds(doc)
  }

  /** The reference comes back as the number it converts to. */
  predicate SameReference(ref: Option<Ref>, back: Option<Ref>) {
    match ref
    case Some(Number(n)) => back == Some(Number(n))
    case Some(Convertible(n)) => back == Some(Number(n))
    case Some(Unusable) => back == None
    case None => back == None
  }

  /** A text comes back as it was, an empty one as none. */
  predicate SameText(text: Option<string>, back: Option<string>) {
    match text
    case None => back == None
    case Some(t) => if t == "" then back == None else back == Some(t)
  }

  /** A value comes back as it was, null as a missing key. */
  predicate SameValue<T(==)>(value: Field<T>, back: Field<T>) {
    match value
    case Is(v) => back == Is(v)
    case Null => back == Missing
    case Missing => back == Missing
  }

  /** The type comes back as it was, a missing one as platform. */
  predicate SameType(stepType: Option<string>, back: Option<string>) {
    match stepType
    case None => back == Some("platform")
    case Some(t) => back == Some(t)
  }

  predicate SameScalars(s: Step, t: Step) {
    && t.stepId == s.stepId && t.order == s.order && SameType(s.stepType, t.stepType)
    && SameReference(s.referencedActionId, t.referencedActionId)
    && t.inputMapping == s.inputMapping && t.outputMapping == s.outputMapping
    && t.retryEnabled == s.retryEnabled && SameValue(s.retryMaxAttempts, t.retryMaxAttempts)
    && SameValue(s.retryIntervalSeconds, t.retryIntervalSeconds)
    && SameValue(s.retryBackoffMultiplier, t.retryBackoffMultiplier)
    && SameText(s.joinPolicy, t.joinPolicy) && SameText(s.condition, t.condition)
    && SameText(s.integrationType, t.integrationType) && SameText(s.operation, t.operation)
    && t.gateType == None
  }

  /** A list is never read back empty or null. */
  predicate ListPresent(ids: Field<seq<string>>) {
    ids == Missing || (ids.Is? && ids.value != [])
  }

  /** t is s as the tables give it back: empty branch lists and empty texts become missing keys,
      the gate type is gone, targets without a step are dropped, everything else is the same. */
  ghost predicate ReadBack(doc: seq<Step>, s: Step, t: Step) {
    && SameScalars(s, t) && ListPresent(t.onSuccess) && ListPresent(t.onError)
    && SameTargets(doc, s.SuccessIds(), t.SuccessIds()) && SameTargets(doc, s.ErrorIds(), t.ErrorIds())
  }

  /** A row turned back into a step has the fields of the step it was written from. */
  lemma RowKeepsScalars(d: int, s: Step, success: seq<string>, error: seq<string>)
    ensures var t := StepFor(RowFor(d, s), success, error);
            SameScalars(s, t) && ListPresent(t.onSuccess) && ListPresent(t.onError)
  {
  }

  ghost predicate RoundTripped(doc: seq<Step>, back: seq<Step>) {
    && UniqueIds(back) && StepIds(back) == StepIds(doc)
    && (forall i, j :: 0 <= i < j < |back| ==> back[i].order <= back[j].order)
    && (forall i :: 0 <= i < |back| ==>
        back[i].stepId in Lookup(doc) && ReadBack(doc, Lookup(doc)[back[i].stepId], back[i]))
  }

  lemma {:induction false} NamesMember(steps: map<int, StepRow>, list: seq<EdgeRow>, kind: Kind, v: string)
    ensures v in Names(steps, list, kind) <==>
      exists e :: e in list && e.kind == kind && e.to in steps && steps[e.to].stepId == v
  {
    if list != [] {
      NamesMember(steps, list[..|list| - 1], kind, v);
      assert list == list[..|list| - 1] + [list[|list| - 1]];
    }
  }

  lemma {:induction false} NamesNoDup(steps: map<int, StepRow>, list: seq<EdgeRow>, kind: Kind)
    requires NoRepeatedEdge(list)
    requires forall e, f :: e in list && f in list ==> e.from == f.from
    requires forall e, f ::
      e in list && f in list && e.to in steps && f.to in steps ==>
        steps[e.to].stepId == steps[f.to].stepId ==> e.to == f.to
    ensures NoDup(Names(steps, list, kind))
  {
    if list != [] {
      var init, last := list[..|list| - 1], list[|list| - 1];
      NamesNoDup(steps, init, kind);
      if last.to in steps && last.kind == kind {
        NamesMember(steps, init, kind, steps[last.to].stepId);
        forall e | e in init && e.kind == kind && e.to in steps
          ensures steps[e.to].stepId != steps[last.to].stepId
        {
          var i :| 0 <= i < |init| && init[i] == e;
          assert list[i] != list[|list| - 1];
        }
      }
    }
  }

  /** The tables after a write into tables whose rows are numbered below base. */
  ghost predicate FreshlyWritten(d: int, doc: seq<Step>, base: int, steps: map<int, StepRow>, edges: set<EdgeRow>) {
    exists steps0: map<int, StepRow>, edges0: set<EdgeRow> ::
      && Written(steps0, edges0, d, doc, base, steps, edges)
      && forall i :: i in steps0 ==> i < base
  }

  /** The rows of definition d are exactly the rows of the write. */
  lemma OwnRows(d: int, doc: seq<Step>, base: int, steps: map<int, StepRow>, edges: set<EdgeRow>)
    requires UniqueIds(doc) && FreshlyWritten(d, doc, base, steps, edges)
    ensures var ids := IdsOf(doc, base);
            && (forall u :: u in ids ==>
                u in Lookup(doc) && ids[u] in steps && steps[ids[u]] == RowFor(d, Lookup(doc)[u]))
            && (forall i :: i in steps && steps[i].definition == d ==>
                steps[i].stepId in ids && ids[steps[i].stepId] == i)
  {
    hide RowFor, UniqueIds, NoDup, Known, Lookup, StepIds, EdgeList;
    IdsFacts(doc, base);
    RowsFacts(d, doc, base);
    forall u | u in IdsOf(doc, base)
      ensures RowFor(d, Lookup(doc)[u]).definition == d
    {
      RowDefinition(d, Lookup(doc)[u]);
    }
  }

  lemma RowDefinition(d: int, s: Step)
    ensures RowFor(d, s).definition == d && RowFor(d, s).stepId == s.stepId
  {
  }

  /** The edges that leave an own row are the edges of the write. */
  lemma OwnEdges(d: int, doc: seq<Step>, base: int, steps: map<int, StepRow>, edges: set<EdgeRow>, e: EdgeRow)
    requires UniqueIds(doc) && FreshlyWritten(d, doc, base, steps, edges)
    requires e.from >= base
    ensures e in edges <==> e in EdgeList(doc, IdsOf(doc, base))
  {
    hide RowFor, UniqueIds, NoDup, Known, Lookup, EdgeList, RowsOf, IdsOf;
  }

  /** The branch list read back for step u. */
  lemma NamesReadBack(d: int, doc: seq<Step>, base: int, steps: map<int, StepRow>, edges: set<EdgeRow>,
                      u: string, list: seq<EdgeRow>, kind: Kind)
    requires UniqueIds(doc) && FreshlyWritten(d, doc, base, steps, edges) && u in IdsOf(doc, base)
    requires ListsEdges(edges, IdsOf(doc, base)[u], list)
    ensures u in Lookup(doc) && SameTargets(doc, TargetsOf(Lookup(doc)[u], kind), Names(steps, list, kind))
  {
    hide RowFor, Known, Lookup, EdgeList, RowsOf, IdsOf, Names, FreshlyWritten, StepIds, UniqueIds, NoDup,
         NoRepeatedEdge;
    var ids := IdsOf(doc, base);
    IdsFacts(doc, base);
    OwnRows(d, doc, base, steps, edges);
    forall w | w in ids
      ensures steps[ids[w]].stepId == w
    {
      RowDefinition(d, Lookup(doc)[w]);
      LookupSound(doc);
    }
    forall e | e in list
      ensures exists w :: w in ids && e.to == ids[w]
    {
      OwnEdges(d, doc, base, steps, edges, e);
      EdgeEnds(doc, ids, e);
    }
    NamesNoDup(steps, list, kind);
    forall v
      ensures v in Names(steps, list, kind) <==> v in TargetsOf(Lookup(doc)[u], kind) && v in ids
    {
      NamesMember(steps, list, kind, v);
      if v in ids {
        EdgesSayTargets(doc, ids, u, v, kind);
        OwnEdges(d, doc, base, steps, edges, EdgeRow(ids[u], ids[v], kind));
      }
    }
  }

  lemma RowReadBack(d: int, doc: seq<Step>, base: int, steps: map<int, StepRow>, edges: set<EdgeRow>, i: int, t: Step)
    requires UniqueIds(doc) && FreshlyWritten(d, doc, base, steps, edges)
    requires i in steps && steps[i].definition == d && Reads(steps, edges, i, t)
    ensures t.stepId == steps[i].stepId && t.stepId in StepIds(doc) && t.stepId in Lookup(doc)
      && t.order == Lookup(doc)[t.stepId].order
    ensures ReadBack(doc, Lookup(doc)[t.stepId], t)
  {
    hide Known, Lookup, EdgeList, RowsOf, IdsOf, Names, FreshlyWritten, StepIds, UniqueIds, NoDup,
         NoRepeatedEdge, ListsEdges, SameTargets;
    OwnRows(d, doc, base, steps, edges);
    IdsFacts(doc, base);
    var u := steps[i].stepId;
    var list :| ListsEdges(edges, i, list)
      && t == StepFor(steps[i], Names(steps, list, Success), Names(steps, list, Error));
    NamesReadBack(d, doc, base, steps, edges, u, list, Success);
    NamesReadBack(d, doc, base, steps, edges, u, list, Error);
    StepForLists(RowFor(d, Lookup(doc)[u]), Names(steps, list, Success), Names(steps, list, Error));
    LookupIds(doc, u);
    RowKeepsScalars(d, Lookup(doc)[u], Names(steps, list, Success), Names(steps, list, Error));
  }

  lemma StepForLists(row: StepRow, success: seq<string>, error: seq<string>)
    ensures StepFor(row, success, error).SuccessIds() == success && StepFor(row, success, error).ErrorIds() == error
  {
  }

  /** A list written and then read back is RoundTripped. */
  lemma WriteThenRead(d: int, doc: seq<Step>, base: int, steps: map<int, StepRow>, edges: set<EdgeRow>,
                      back: seq<Step>, rowIds: seq<int>)
    requires UniqueIds(doc) && FreshlyWritten(d, doc, base, steps, edges)
    requires ReadsAll(steps, edges, RowsOfDefinition(steps, d), back, rowIds)
    ensures RoundTripped(doc, back)
  {
    hide Known, Lookup, EdgeList, RowsOf, IdsOf, FreshlyWritten, StepIds, Reads, ReadBack, RowFor;
    forall k | 0 <= k < |rowIds|
      ensures rowIds[k] in steps && steps[rowIds[k]].definition == d
    {
      assert rowIds[k] in rowIds;
    }
    forall k | 0 <= k < |back|
      ensures back[k].stepId == steps[rowIds[k]].stepId && back[k].stepId in StepIds(doc)
        && back[k].stepId in Lookup(doc)
      ensures ReadBack(doc, Lookup(doc)[back[k].stepId], back[k])
    {
      RowReadBack(d, doc, base, steps, edges, rowIds[k], back[k]);
    }
    OwnRows(d, doc, base, steps, edges);
    IdsMatch(doc, base);
    forall u
      ensures u in StepIds(back) <==> u in StepIds(doc)
    {
      StepIdsMember(back, u);
      StepIdsMember(doc, u);
      if u in StepIds(doc) {
        var i := IdsOf(doc, base)[u];
        RowDefinition(d, Lookup(doc)[u]);
        assert i in RowsOfDefinition(steps, d) && i in rowIds;
        var k :| 0 <= k < |rowIds| && rowIds[k] == i;
        LookupIds(doc, u);
        assert back[k].stepId == u;
      }
    }
    forall j, k | 0 <= j < k < |back|
      ensures back[j].stepId != back[k].stepId
    {
      assert rowIds[j] != rowIds[k];
    }
  }

  lemma IdsMatch(doc: seq<Step>, base: int)
    requires UniqueIds(doc)
    ensures IdsOf(doc, base).Keys == StepIds(doc)
  {
    IdsFacts(doc, base);
  }

  lemma LookupIds(doc: seq<Step>, u: string)
    requires u in Lookup(doc)
    ensures Lookup(doc)[u].stepId == u
  {
    LookupSound(doc);
  }
}
