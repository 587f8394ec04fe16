/** Catalogue requests that run side by side: each has looked at the rows before it writes, and holds a lock on its
    own row at most. */
module CatalogRaces {
  import opened Catalog

  /** What a deactivation writes that has found the workflows off: the rows as they are by then, disabled. */
  function Withdrawn(actions: Actions, id: int, off: set<int>): Actions {
    map k | k in actions :: if k == id || k in off then Off(actions[k]) else actions[k]
  }

  /** The workflows a deactivation finds when it looks. */
  function Found(actions: Actions, id: int): set<int> {
    set k | k in actions && Affected(actions[k], id)
  }

  /** The row w as a reactivation or an enable transition that has passed its check will write it. */
  predicate Revives(actions: Actions, w: int, row: Row) {
    && w in actions && actions[w].status == Disabled
    && row.status == Published && row.itemType == actions[w].itemType && row.steps == actions[w].steps
  }

  ghost predicate CheckPassed(actions: Actions, w: int)
    requires w in actions
  {
    actions[w].itemType == WorkflowItem ==> AllPublished(actions, actions[w])
  }

  /** The workflow references the action or a workflow that is going to be disabled with it. */
  ghost predicate Undermined(actions: Actions, id: int, w: int)
    requires w in actions
  {
    && actions[w].itemType == WorkflowItem
    && exists r :: References(actions[w], r) && (r == id || r in Found(actions, id))
  }

  lemma OrderIsNothing(actions: Actions, id: int, w: int, row: Row)
    requires Revives(actions, w, row) && id in actions && w != id
    ensures Withdrawn(actions[w := row], id, Found(actions, id)) == Withdrawn(actions, id, Found(actions, id))[w := row]
    ensures Withdrawn(actions, id, Found(actions, id)) == Deactivated(actions, id)
  {
    hide Names;
  }

  /** A deactivation and a revival that have both looked at the same rows, and then write in either order, keep
      published workflows sound exactly when what is revived does not rest on what is withdrawn: the scan passes over
      disabled workflows, and rows that are only referenced are not locked. */
  lemma SideBySideKeepsSoundIff(actions: Actions, id: int, w: int, row: Row)
    requires Sound(actions) && Happens(actions, Deactivate(id)) && CascadeCovers(actions, id)
    requires w != id && Revives(actions, w, row) && CheckPassed(actions, w)
    ensures var one := Withdrawn(actions, id, Found(actions, id))[w := row];
            var other := Withdrawn(actions[w := row], id, Found(actions, id));
            one == other && (Sound(one) <==> !Undermined(actions, id, w))
  {
    hide References, Names, Affected, AllPublished, CascadeCovers;
    OrderIsNothing(actions, id, w, row);
    DeactivateKeepsSoundIff(actions, id);
    var after := Deactivated(actions, id);
    RowWriteKeepsSoundIff(after, w, row);
    assert !IsPublished(after, w) by { NotFound(actions, id, w); }
    if PublishedWorkflow(row) {
      StillPublishedIff(actions, id, w, row);
    }
  }

  lemma NotFound(actions: Actions, id: int, w: int)
    requires w in actions && w != id && actions[w].status == Disabled
    ensures w !in Found(actions, id) && Deactivated(actions, id)[w] == actions[w]
  {
  }

  lemma StillPublishedIff(actions: Actions, id: int, w: int, row: Row)
    requires id in actions && w != id && Revives(actions, w, row) && row.itemType == WorkflowItem
    requires AllPublished(actions, actions[w])
    ensures AllPublished(Deactivated(actions, id)[w := row], row) <==> !Undermined(actions, id, w)
  {
    hide References, Names;
    var after := Deactivated(actions, id)[w := row];
    forall r
      ensures References(row, r) <==> References(actions[w], r)
      ensures References(actions[w], r) ==> (IsPublished(after, r) <==> !(r == id || r in Found(actions, id)))
    {
      SameRefs(row, actions[w], r);
      NotFound(actions, id, w);
    }
  }

  /** The race itself: a disabled workflow that rests on a published action is reactivated while the action is
      deactivated. Each request alone would have been refused, or would have cascaded. */
  lemma ReactivationRace(actions: Actions, id: int, w: int)
    requires Sound(actions) && Happens(actions, Deactivate(id)) && CascadeCovers(actions, id)
    requires w != id && Happens(actions, Reactivate(w)) && actions[w].itemType == WorkflowItem && Names(actions[w], id)
    ensures !Sound(Withdrawn(actions, id, Found(actions, id))[w := On(actions[w])])
    ensures !Happens(Perform(actions, Deactivate(id)), Reactivate(w))
    ensures Perform(Perform(actions, Reactivate(w)), Deactivate(id))[w] == Off(On(actions[w]))
  {
    hide CascadeCovers, Sound;
    NamedIsReferenced(actions[w], id);
    assert Undermined(actions, id, w);
    SideBySideKeepsSoundIff(actions, id, w, On(actions[w]));
    var after := Perform(actions, Deactivate(id));
    assert after[w] == actions[w] && !IsPublished(after, id) && !AllPublished(after, after[w]);
    SameNames(actions[w], On(actions[w]), id);
  }

  lemma NamedIsReferenced(row: Row, id: int)
    requires Names(row, id)
    ensures References(row, id)
  {
    var i :| 0 <= i < |row.steps| && NamesIt(row.steps[i], id);
    assert RefersTo(row.steps[i], id);
  }

  lemma SameNames(a: Row, b: Row, id: int)
    requires a.steps == b.steps
    ensures Names(a, id) <==> Names(b, id)
  {
  }

  /** A change of steps reads its row without a lock and writes all of it back: when the row has been published in
      between, it is a draft or disabled again. That keeps published workflows sound exactly when none depends on it. */
  lemma StaleEditKeepsSoundIff(actions: Actions, id: int, read: Row, row: Row)
    requires Sound(actions) && IsPublished(actions, id) && read.status != Published && row == read.(steps := row.steps)
    ensures Sound(actions[id := row]) <==> !Depended(actions, id)
  {
    hide Sound, Depended, AllPublished;
    RowWriteKeepsSoundIff(actions, id, row);
  }
}
