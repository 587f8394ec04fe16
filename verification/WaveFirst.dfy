/** The first wave of a run, said of the step list itself. */
module WaveFirst {
  import opened Workflow
  import opened Routing
  import opened WaveRun
  import opened Text
  import opened GraphRules
  import opened WaveOutcomes

  // ---------- a list cut down to some of its places ----------

  /** The places of a list, in order. */
  ghost predicate Places(at: seq<nat>, n: nat) {
    (forall i :: 0 <= i < |at| ==> at[i] < n) && (forall i, j :: 0 <= i < j < |at| ==> at[i] < at[j])
  }

  predicate NonEmptyIdIn(steps: seq<Step>, id: string) {
    id != "" && exists j :: 0 <= j < |steps| && steps[j].stepId == id
  }

  /** The ids at these places are those that name a step. */
  ghost predicate KeepsKnown(steps: seq<Step>, ids: seq<string>, kept: seq<string>, at: seq<nat>) {
    && Places(at, |ids|) && |kept| == |at| && (forall i :: 0 <= i < |at| ==> kept[i] == ids[at[i]])
    && forall k :: 0 <= k < |ids| ==> (k in at <==> NonEmptyIdIn(steps, ids[k]))
  }

  lemma OneMoreKnown(steps: seq<Step>, ids: seq<string>, kept: seq<string>, at: seq<nat>)
    requires ids != [] && KeepsKnown(steps, ids[..|ids| - 1], kept, at)
    ensures var n := |ids| - 1;
            if NonEmptyIdIn(steps, ids[n]) then KeepsKnown(steps, ids, kept + [ids[n]], at + [n])
            else KeepsKnown(steps, ids, kept, at)
  {
    hide NonEmptyIdIn;
    var n := |ids| - 1;
    assert n !in at;
    assert forall k :: 0 <= k < n ==> ids[..n][k] == ids[k];
  }

  lemma {:induction false} KnownKeeps(steps: seq<Step>, ids: seq<string>) returns (at: seq<nat>)
    ensures KeepsKnown(steps, ids, Known(ids, Lookup(steps)), at)
  {
    hide Lookup, NonEmptyIdIn;
    at := [];
    if ids != [] {
      hide KeepsKnown;
      var n := |ids| - 1;
      var before := KnownKeeps(steps, ids[..n]);
      IdIn(steps, ids[n]);
      OneMoreKnown(steps, ids, Known(ids[..n], Lookup(steps)), before);
      at := if ids[n] in Lookup(steps) then before + [n] else before;
    }
  }

  lemma IdIn(steps: seq<Step>, id: string)
    ensures id in Lookup(steps) <==> NonEmptyIdIn(steps, id)
  {
    LookupSound(steps);
    StepIdsMember(steps, id);
  }

  // ---------- entries ----------

  /** Some branch list names the id, blanks around it or not. */
  ghost predicate NamedSomewhere(steps: seq<Step>, id: string) {
    exists i, t :: 0 <= i < |steps| && NamedBy(steps[i], t) && !Blank(t) && Strip(t) == id
  }

  ghost predicate NothingNamed(steps: seq<Step>) {
    forall i, t :: 0 <= i < |steps| && NamedBy(steps[i], t) ==> Blank(t)
  }

  /** No branch list names step i, which has an id. */
  ghost predicate IsEntry(steps: seq<Step>, i: int) {
    0 <= i < |steps| && !Blank(steps[i].stepId) && !NamedSomewhere(steps, steps[i].stepId)
  }

  /** The wave holds the ids of all entry steps, in list order. */
  ghost predicate HoldsEntries(steps: seq<Step>, wave: seq<string>, at: seq<nat>) {
    && Places(at, |steps|) && |wave| == |at| && (forall i :: 0 <= i < |at| ==> wave[i] == steps[at[i]].stepId)
    && forall k :: 0 <= k < |steps| ==> (k in at <==> IsEntry(steps, k))
  }

  lemma TargetsNamed(steps: seq<Step>, id: string)
    ensures id in StrippedTargets(steps) <==> NamedSomewhere(steps, id)
  {
    hide Strip, Blank;
    forall s: Step, t: string
      ensures NamedBy(s, t) <==> t in s.SuccessIds() + s.ErrorIds()
    {
    }
  }

  lemma NoTargets(steps: seq<Step>)
    ensures StrippedTargets(steps) == {} <==> NothingNamed(steps)
  {
    hide Strip, Blank;
    forall s: Step, t: string
      ensures NamedBy(s, t) <==> t in s.SuccessIds() + s.ErrorIds()
    {
    }
    if i, t :| 0 <= i < |steps| && NamedBy(steps[i], t) && !Blank(t) {
      assert Strip(t) in StrippedTargets(steps);
    }
    if id :| id in StrippedTargets(steps) {
      TargetsNamed(steps, id);
    }
  }

  /** The entries among the first n steps. */
  ghost predicate EntriesUpTo(steps: seq<Step>, entries: seq<string>, at: seq<nat>, n: nat) {
    && n <= |steps| && Places(at, n) && |entries| == |at|
    && (forall i :: 0 <= i < |at| ==> entries[i] == steps[at[i]].stepId)
    && forall k :: 0 <= k < n ==> (k in at <==> IsEntry(steps, k))
  }

  lemma OneMoreEntry(steps: seq<Step>, entries: seq<string>, at: seq<nat>, n: nat)
    requires n < |steps| && EntriesUpTo(steps, entries, at, n)
    ensures if IsEntry(steps, n) then EntriesUpTo(steps, entries + [steps[n].stepId], at + [n], n + 1)
            else EntriesUpTo(steps, entries, at, n + 1)
  {
    hide IsEntry;
    assert n !in at;
  }

  lemma {:induction false} EntriesHeld(all: seq<Step>, n: nat) returns (at: seq<nat>)
    requires n <= |all|
    ensures EntriesUpTo(all, EntriesAmong(all[..n], StrippedTargets(all)), at, n)
  {
    hide StrippedTargets, NamedSomewhere, Blank, EntriesUpTo;
    at := [];
    if n == 0 {
      assert EntriesUpTo(all, [], [], 0) by { NoEntries(all); }
    } else {
      var before := EntriesHeld(all, n - 1);
      assert all[..n][..n - 1] == all[..n - 1];
      TargetsNamed(all, all[n - 1].stepId);
      OneMoreEntry(all, EntriesAmong(all[..n - 1], StrippedTargets(all)), before, n - 1);
      at := if IsEntry(all, n - 1) then before + [n - 1] else before;
    }
  }

  lemma NoEntries(steps: seq<Step>)
    ensures EntriesUpTo(steps, [], [], 0)
  {
  }

  // ---------- the least entry ----------

  /** Dictionary order. */
  ghost predicate Before(a: string, b: string) {
    exists k :: FirstDiffers(a, b, k)
  }

  predicate FirstDiffers(a: string, b: string, k: int) {
    0 <= k < |b| && k <= |a| && a[..k] == b[..k] && (k == |a| || a[k] < b[k])
  }

  lemma SameHead(a: string, b: string, k: int)
    requires FirstDiffers(a, b, k) && k > 0
    ensures a[0] == b[0]
  {
    assert a[..k][0] == b[..k][0];
  }

  lemma {:induction false} BeforeIff(a: string, b: string)
    ensures StringLess(a, b) <==> Before(a, b)
  {
    if b == "" {
      assert !Before(a, b);
    } else if a == "" {
      assert FirstDiffers(a, b, 0);
    } else if a[0] < b[0] {
      assert FirstDiffers(a, b, 0);
    } else if a[0] == b[0] {
      BeforeIff(a[1..], b[1..]);
      if k :| FirstDiffers(a[1..], b[1..], k) {
        assert a[..k + 1] == [a[0]] + a[1..][..k] && b[..k + 1] == [b[0]] + b[1..][..k];
        assert FirstDiffers(a, b, k + 1);
      }
      if k :| FirstDiffers(a, b, k) {
        assert k > 0;
        assert a[1..][..k - 1] == a[..k][1..] && b[1..][..k - 1] == b[..k][1..];
        assert FirstDiffers(a[1..], b[1..], k - 1);
      }
    } else {
      forall k
        ensures !FirstDiffers(a, b, k)
      {
        if FirstDiffers(a, b, k) && k > 0 {
          SameHead(a, b, k);
        }
      }
    }
  }

  /** Step i is an entry, and none comes before it by order and id. */
  ghost predicate LeastEntry(steps: seq<Step>, i: int) {
    && IsEntry(steps, i)
    && forall j :: 0 <= j < |steps| && IsEntry(steps, j) ==>
        || steps[i].order < steps[j].order
        || (steps[i].order == steps[j].order && !Before(steps[j].stepId, steps[i].stepId))
  }

  /** Among the first n steps, step i is listed and none that is listed comes before it. */
  ghost predicate LeastListed(steps: seq<Step>, ids: seq<string>, n: nat, i: int) {
    && 0 <= i < n <= |steps| && steps[i].stepId in ids
    && forall j :: 0 <= j < n && steps[j].stepId in ids ==> NotBefore(steps[j], steps[i])
  }

  predicate NotBefore(s: Step, t: Step) {
    t.order < s.order || (t.order == s.order && !StringLess(s.stepId, t.stepId))
  }

  lemma {:induction false} LessIrreflexive(a: string)
    ensures !StringLess(a, a)
  {
    if a != "" {
      LessIrreflexive(a[1..]);
    }
  }

  lemma {:induction false} LessChains(a: string, b: string, c: string)
    ensures StringLess(a, b) && !StringLess(c, b) ==> !StringLess(c, a)
  {
    if a != "" && b != "" && c != "" && a[0] == b[0] == c[0] {
      LessChains(a[1..], b[1..], c[1..]);
    }
  }

  lemma {:induction false} FirstListedLeast(steps: seq<Step>, ids: seq<string>, n: nat)
    requires n <= |steps|
    ensures var first := FirstListed(steps[..n], ids);
            if first.None? then forall j :: 0 <= j < n ==> steps[j].stepId !in ids
            else exists i :: LeastListed(steps, ids, n, i) && first == Some(steps[i])
  {
    hide StringLess;
    if n > 0 {
      FirstListedLeast(steps, ids, n - 1);
      assert steps[..n][..n - 1] == steps[..n - 1];
      var init, last := FirstListed(steps[..n - 1], ids), steps[n - 1];
      LessIrreflexive(last.stepId);
      if init.None? {
        if last.stepId in ids {
          assert LeastListed(steps, ids, n, n - 1);
        }
      } else {
        var i :| LeastListed(steps, ids, n - 1, i) && init == Some(steps[i]);
        if last.stepId in ids && !NotBefore(last, steps[i]) {
          forall j | 0 <= j < n - 1 && steps[j].stepId in ids
            ensures NotBefore(steps[j], last)
          {
            LessChains(last.stepId, steps[i].stepId, steps[j].stepId);
          }
          assert LeastListed(steps, ids, n, n - 1);
        } else {
          assert LeastListed(steps, ids, n, i);
        }
      }
    }
  }

  // ---------- the first wave ----------

  /** Step i has the least order, and no other of that order stands before it. */
  ghost predicate FirstInOrder(steps: seq<Step>, i: int) {
    && 0 <= i < |steps|
    && forall j :: 0 <= j < |steps| ==>
        steps[i].order < steps[j].order || (steps[i].order == steps[j].order && i <= j)
  }

  lemma {:induction false} FirstIsFirst(steps: seq<Step>)
    requires steps != []
    ensures exists i :: FirstInOrder(steps, i) && FirstByOrder(steps) == steps[i]
  {
    hide FirstByOrder;
    var n := |steps| - 1;
    assert steps == steps[..n] + [steps[n]];
    FirstOfLonger(steps[..n], steps[n]);
    if n == 0 {
      assert FirstInOrder(steps, 0);
    } else {
      FirstIsFirst(steps[..n]);
      var i :| FirstInOrder(steps[..n], i) && FirstByOrder(steps[..n]) == steps[..n][i];
      assert FirstInOrder(steps, if steps[n].order < steps[i].order then n else i);
    }
  }

  lemma EntryIds(steps: seq<Step>, at: seq<nat>, j: nat)
    requires EntriesUpTo(steps, EntriesAmong(steps, StrippedTargets(steps)), at, |steps|) && j < |steps|
    ensures steps[j].stepId in EntriesAmong(steps, StrippedTargets(steps)) <==> IsEntry(steps, j)
  {
    hide EntriesAmong, StrippedTargets, NamedSomewhere, Blank;
    var entries := EntriesAmong(steps, StrippedTargets(steps));
    if IsEntry(steps, j) {
      assert j in at;
      var i :| 0 <= i < |at| && at[i] == j;
      assert entries[i] == steps[j].stepId;
    }
    if steps[j].stepId in entries {
      var i :| 0 <= i < |entries| && entries[i] == steps[j].stepId;
      assert at[i] in at && IsEntry(steps, at[i]);
    }
  }

  lemma EntriesKnown(steps: seq<Step>, at: seq<nat>, entries: seq<string>)
    requires EntriesUpTo(steps, entries, at, |steps|)
    ensures forall id :: id in entries ==> id in Lookup(steps)
  {
    hide Lookup, NamedSomewhere;
    forall id | id in entries
      ensures id in Lookup(steps)
    {
      var i :| 0 <= i < |entries| && entries[i] == id;
      assert at[i] in at && IsEntry(steps, at[i]);
      IdIn(steps, id);
      assert steps[at[i]].stepId == id;
    }
  }

  /** A run that is resumed starts with the ids it is given that name a step. Any other starts with the steps no branch
      list names, or, when nothing is named at all, with the least of them; and when there is none, with the first step
      by order, or in list order when that step has no id. */
  lemma FirstWaveTells(steps: seq<Step>, resume: seq<string>)
    requires steps != []
    ensures var first := InitialWave(steps, resume);
            if resume != [] then exists at: seq<nat> :: first.Some? && KeepsKnown(steps, resume, first.value, at)
            else if exists i :: IsEntry(steps, i) then
              if NothingNamed(steps) then exists i :: LeastEntry(steps, i) && first == Some([steps[i].stepId])
              else exists at: seq<nat> :: first.Some? && HoldsEntries(steps, first.value, at)
            else exists i :: FirstInOrder(steps, i) && (first.Some? ==> first.value == [steps[i].stepId])
                             && (first.None? <==> steps[i].stepId == "")
  {
    hide Lookup, StrippedTargets, EntriesAmong, FirstListed, Known, FirstByOrder, IsEntry, NothingNamed, KeepsKnown;
    if resume != [] {
      var at := KnownKeeps(steps, resume);
      var kept := Known(resume, Lookup(steps));
      assert InitialWave(steps, resume) == Some(kept) && KeepsKnown(steps, resume, kept, at);
    } else {
      var at := EntriesHeld(steps, |steps|);
      assert steps[..|steps|] == steps;
      var entries := EntriesAmong(steps, StrippedTargets(steps));
      EntriesKnown(steps, at, entries);
      NoTargets(steps);
      if entries == [] {
        OutsideNoEntry(steps);
        FirstIsFirst(steps);
      } else {
        assert at[0] in at && IsEntry(steps, at[0]);
        KnownAll(entries, Lookup(steps));
        if NothingNamed(steps) {
          OnlyLeast(steps, at);
        } else {
          assert InitialWave(steps, resume) == Some(entries) && HoldsEntries(steps, entries, at);
        }
      }
    }
  }

  lemma OutsideNoEntry(steps: seq<Step>)
    ensures forall i :: IsEntry(steps, i) ==> 0 <= i < |steps|
  {
  }

  lemma OnlyLeast(steps: seq<Step>, at: seq<nat>)
    requires EntriesUpTo(steps, EntriesAmong(steps, StrippedTargets(steps)), at, |steps|) && at != []
    requires StrippedTargets(steps) == {} && steps != []
    ensures exists i :: LeastEntry(steps, i) && InitialWave(steps, []) == Some([steps[i].stepId])
  {
    hide Lookup, StrippedTargets, EntriesAmong, FirstListed, Known, FirstByOrder, StringLess, Before, IsEntry;
    var entries := EntriesAmong(steps, StrippedTargets(steps));
    FirstListedLeast(steps, entries, |steps|);
    assert steps[..|steps|] == steps;
    assert at[0] in at && IsEntry(steps, at[0]);
    EntryIds(steps, at, at[0]);
    var i :| LeastListed(steps, entries, |steps|, i) && FirstListed(steps, entries) == Some(steps[i]);
    forall j | 0 <= j < |steps|
      ensures steps[j].stepId in entries <==> IsEntry(steps, j)
      ensures StringLess(steps[j].stepId, steps[i].stepId) <==> Before(steps[j].stepId, steps[i].stepId)
    {
      EntryIds(steps, at, j);
      BeforeIff(steps[j].stepId, steps[i].stepId);
    }
    assert LeastEntry(steps, i);
    EntriesKnown(steps, at, entries);
    KnownAll([steps[i].stepId], Lookup(steps));
  }
}
