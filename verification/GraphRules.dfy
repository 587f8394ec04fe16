/** The two graph rules of validation, said of the branch lists themselves: no way round in a circle, and no gate in a
    parallel branch. */
module GraphRules {
  import opened Digraph
  import opened Workflow
  import GateCheck

  predicate NamedBy(s: Step, t: string) {
    (s.onSuccess.Is? && t in s.onSuccess.value) || (s.onError.Is? && t in s.onError.value)
  }

  /** The step that u stands for names v. */
  ghost predicate Follows(steps: seq<Step>, u: string, v: string) {
    u != "" && exists i :: LastWith(steps, i, u) && NamedBy(steps[i], v)
  }

  lemma FollowsIff(steps: seq<Step>, u: string, v: string)
    ensures Follows(steps, u, v) <==> v in GateCheck.Next(Lookup(steps), u)
    ensures v in Out(GraphOf(steps), u) <==> Follows(steps, u, v) && v != ""
  {
    hide Lookup, LastWith;
    LookupLast(steps, u);
  }

  /** The walk moves along a branch list from its place i. */
  ghost predicate MovesAt(steps: seq<Step>, p: seq<string>, i: int) {
    0 <= i < |p| - 1 && Follows(steps, p[i], p[i + 1])
  }

  ghost predicate Circle(steps: seq<Step>, p: seq<string>) {
    && |p| >= 2 && p[0] == p[|p| - 1] && p[0] != ""
    && forall i :: 0 <= i < |p| - 1 ==> MovesAt(steps, p, i)
  }

  ghost predicate GoesRound(steps: seq<Step>) {
    exists p :: Circle(steps, p)
  }

  lemma CircleIff(steps: seq<Step>, p: seq<string>)
    ensures Circle(steps, p) <==> IsCycle(GraphOf(steps), p)
  {
    hide GraphOf, Lookup, GateCheck.Next;
    forall i | 0 <= i < |p| - 1
      ensures p[i + 1] in Out(GraphOf(steps), p[i]) <==> MovesAt(steps, p, i) && p[i + 1] != ""
      ensures MovesAt(steps, p, i) ==> p[i] != ""
    {
      FollowsIff(steps, p[i], p[i + 1]);
    }
    hide Follows, MovesAt, Out;
    if Circle(steps, p) {
      forall i | 0 <= i < |p| - 1
        ensures p[i + 1] in Out(GraphOf(steps), p[i])
      {
        assert MovesAt(steps, p, i) && (i + 1 < |p| - 1 ==> MovesAt(steps, p, i + 1));
      }
    }
    if IsCycle(GraphOf(steps), p) {
      assert p[0 + 1] in Out(GraphOf(steps), p[0]);
      forall i | 0 <= i < |p| - 1
        ensures MovesAt(steps, p, i)
      {
        assert p[i + 1] in Out(GraphOf(steps), p[i]);
      }
    }
  }

  lemma GoesRoundIff(steps: seq<Step>)
    ensures GoesRound(steps) <==> !Acyclic(GraphOf(steps))
  {
    hide Circle, IsCycle;
    forall p
      ensures Circle(steps, p) <==> IsCycle(GraphOf(steps), p)
    {
      CircleIff(steps, p);
    }
  }

  // ---------- join points ----------

  /** Place k of step i's branch lists, success before error, holds t. */
  predicate MentionedAt(steps: seq<Step>, i: int, k: int, t: string) {
    0 <= i < |steps| && 0 <= k < |steps[i].SuccessIds() + steps[i].ErrorIds()|
    && (steps[i].SuccessIds() + steps[i].ErrorIds())[k] == t
  }

  ghost predicate Mentioned(steps: seq<Step>, t: string) {
    exists i, k :: MentionedAt(steps, i, k, t)
  }

  ghost predicate MentionedTwice(steps: seq<Step>, t: string) {
    exists i, k, j, l :: MentionedAt(steps, i, k, t) && MentionedAt(steps, j, l, t) && (i != j || k != l)
  }

  lemma CountIff<T>(s: seq<T>, x: T)
    ensures multiset(s)[x] >= 1 <==> exists k :: 0 <= k < |s| && s[k] == x
    ensures multiset(s)[x] >= 2 <==> exists k, l :: 0 <= k < l < |s| && s[k] == x && s[l] == x
  {
    if s != [] {
      var n := |s| - 1;
      CountIff(s[..n], x);
      assert s == s[..n] + [s[n]];
      assert forall k :: 0 <= k < n ==> s[..n][k] == s[k];
      if k, l :| 0 <= k < l < n && s[..n][k] == x && s[..n][l] == x {
        assert s[k] == x && s[l] == x;
      }
      if k :| 0 <= k < n && s[..n][k] == x {
        assert s[k] == x;
      }
    }
  }

  lemma LastMentioned(steps: seq<Step>, t: string)
    requires steps != []
    ensures var n := |steps| - 1;
            forall i, k :: MentionedAt(steps, i, k, t) <==>
              MentionedAt(steps[..n], i, k, t) || (i == n && MentionedAt(steps, n, k, t))
  {
  }

  lemma LastCount(steps: seq<Step>, t: string)
    requires steps != []
    ensures var n := |steps| - 1;
            GateCheck.InDegree(steps, t) ==
              GateCheck.InDegree(steps[..n], t) + multiset(steps[n].SuccessIds() + steps[n].ErrorIds())[t]
  {
    var n := |steps| - 1;
    var s := steps[n];
    var init := GateCheck.AllTargets(steps[..n]);
    assert init + s.SuccessIds() + s.ErrorIds() == init + (s.SuccessIds() + s.ErrorIds());
  }

  lemma {:induction false} MentionedIff(steps: seq<Step>, t: string)
    ensures GateCheck.InDegree(steps, t) >= 1 <==> Mentioned(steps, t)
    ensures GateCheck.InDegree(steps, t) >= 2 <==> MentionedTwice(steps, t)
  {
    if steps != [] {
      var n := |steps| - 1;
      MentionedIff(steps[..n], t);
      LastMentioned(steps, t);
      LastCount(steps, t);
      CountIff(steps[n].SuccessIds() + steps[n].ErrorIds(), t);
      LastMentions(steps, t);
      hide MentionedAt, GateCheck.InDegree;
      MentionedLonger(steps, t);
    } else {
      NothingMentioned(t);
    }
  }

  lemma NothingMentioned(t: string)
    ensures GateCheck.InDegree([], t) == 0 && !Mentioned([], t) && !MentionedTwice([], t)
  {
  }

  /** Once or twice by the last step. */
  lemma LastMentions(steps: seq<Step>, t: string)
    requires steps != []
    ensures var n := |steps| - 1;
            var last := steps[n].SuccessIds() + steps[n].ErrorIds();
            && ((exists k :: 0 <= k < |last| && last[k] == t) <==> exists k :: MentionedAt(steps, n, k, t))
            && ((exists k, l :: 0 <= k < l < |last| && last[k] == t && last[l] == t) <==>
                exists k, l :: k != l && MentionedAt(steps, n, k, t) && MentionedAt(steps, n, l, t))
  {
    var n := |steps| - 1;
    var last := steps[n].SuccessIds() + steps[n].ErrorIds();
    if k :| 0 <= k < |last| && last[k] == t {
      assert MentionedAt(steps, n, k, t);
    }
    if k, l :| 0 <= k < l < |last| && last[k] == t && last[l] == t {
      assert MentionedAt(steps, n, k, t) && MentionedAt(steps, n, l, t);
    }
    if k, l :| k != l && MentionedAt(steps, n, k, t) && MentionedAt(steps, n, l, t) {
      var a, b := if k < l then k else l, if k < l then l else k;
      assert last[a] == t && last[b] == t;
    }
  }

  lemma MentionedLonger(steps: seq<Step>, t: string)
    requires steps != []
    ensures var n := |steps| - 1;
            var one := exists k :: MentionedAt(steps, n, k, t);
            var two := exists k, l :: k != l && MentionedAt(steps, n, k, t) && MentionedAt(steps, n, l, t);
            && (Mentioned(steps, t) <==> Mentioned(steps[..n], t) || one)
            && (MentionedTwice(steps, t) <==> MentionedTwice(steps[..n], t) || (Mentioned(steps[..n], t) && one) || two)
  {
    LastMentioned(steps, t);
    var n := |steps| - 1;
    assert forall i, k :: MentionedAt(steps[..n], i, k, t) ==> i < n;
    hide MentionedAt;
    if k :| MentionedAt(steps, n, k, t) {
      if i, j :| MentionedAt(steps[..n], i, j, t) {
        assert MentionedAt(steps, i, j, t) && i != n;
      }
    }
    if i, k, j, l :| MentionedAt(steps, i, k, t) && MentionedAt(steps, j, l, t) && (i != j || k != l) {
      if i == n && j == n {
        assert k != l;
      } else if i != n && j != n {
        assert MentionedAt(steps[..n], i, k, t) && MentionedAt(steps[..n], j, l, t);
      }
    }
  }

  // ---------- gates ----------

  /** A step whose id is mentioned twice. */
  ghost predicate IsJoin(steps: seq<Step>, t: string) {
    t != "" && (exists i :: 0 <= i < |steps| && steps[i].stepId == t) && MentionedTwice(steps, t)
  }

  ghost predicate IsGateStep(steps: seq<Step>, t: string) {
    t != "" && exists i :: LastWith(steps, i, t) && steps[i].stepType == Some("gate")
  }

  predicate FansOut(list: Field<seq<string>>, t: string) {
    list.Is? && |list.value| >= 2 && t in list.value
  }

  /** A way from a target of a list of two or more, along branch lists and past no join point, to a gate. */
  ghost predicate WayToGate(steps: seq<Step>, s: Step, p: seq<string>) {
    && |p| > 0 && (FansOut(s.onSuccess, p[0]) || FansOut(s.onError, p[0]))
    && (forall i :: 0 <= i < |p| ==> !IsJoin(steps, p[i]))
    && (forall i :: 0 <= i < |p| - 1 ==> MovesAt(steps, p, i))
    && IsGateStep(steps, p[|p| - 1])
  }

  ghost predicate GateInParallel(steps: seq<Step>) {
    exists s, p :: s in steps && WayToGate(steps, s, p)
  }

  lemma JoinIff(steps: seq<Step>, t: string)
    ensures IsJoin(steps, t) <==> t in GateCheck.JoinPoints(steps, StepIds(steps))
  {
    hide MentionedTwice, GateCheck.InDegree;
    StepIdsMember(steps, t);
    MentionedIff(steps, t);
  }

  lemma GateStepIff(steps: seq<Step>, t: string)
    ensures IsGateStep(steps, t) <==> GateCheck.IsGateId(Lookup(steps), t)
  {
    hide Lookup, LastWith;
    LookupLast(steps, t);
  }

  lemma WayIff(steps: seq<Step>, s: Step, p: seq<string>)
    ensures WayToGate(steps, s, p) <==>
      var joins, lookup := GateCheck.JoinPoints(steps, StepIds(steps)), Lookup(steps);
      && |p| > 0 && GateCheck.IsGateId(lookup, p[|p| - 1])
      && ((|s.SuccessIds()| >= 2 && GateCheck.BranchPath(lookup, joins, s.SuccessIds(), p))
          || (|s.ErrorIds()| >= 2 && GateCheck.BranchPath(lookup, joins, s.ErrorIds(), p)))
  {
    hide Lookup, StepIds, IsGateStep, IsJoin, Follows, GateCheck.JoinPoints, GateCheck.IsGateId, GateCheck.Next;
    if |p| > 0 {
      GateStepIff(steps, p[|p| - 1]);
    }
    forall t
      ensures IsJoin(steps, t) <==> t in GateCheck.JoinPoints(steps, StepIds(steps))
    {
      JoinIff(steps, t);
    }
    forall i | 0 <= i < |p| - 1
      ensures MovesAt(steps, p, i) <==> p[i + 1] in GateCheck.Next(Lookup(steps), p[i])
    {
      FollowsIff(steps, p[i], p[i + 1]);
    }
    hide MovesAt;
  }

  lemma GateInParallelIff(steps: seq<Step>)
    ensures GateInParallel(steps) <==> GateCheck.GateInFanOut(steps, StepIds(steps))
  {
    hide Lookup, StepIds, WayToGate, GateCheck.JoinPoints, GateCheck.IsGateId;
    var joins, lookup := GateCheck.JoinPoints(steps, StepIds(steps)), Lookup(steps);
    if s, p :| s in steps && WayToGate(steps, s, p) {
      WayIff(steps, s, p);
      var ids := if |s.SuccessIds()| >= 2 && GateCheck.BranchPath(lookup, joins, s.SuccessIds(), p) then s.SuccessIds()
                 else s.ErrorIds();
      assert GateCheck.Reached(lookup, joins, ids, p[|p| - 1]);
      assert GateCheck.BranchHasGate(lookup, joins, ids);
    }
    if s :| s in steps && (GateCheck.BranchHasGate(lookup, joins, s.SuccessIds())
                           || GateCheck.BranchHasGate(lookup, joins, s.ErrorIds())) {
      var ids := if GateCheck.BranchHasGate(lookup, joins, s.SuccessIds()) then s.SuccessIds() else s.ErrorIds();
      var g :| GateCheck.IsGateId(lookup, g) && GateCheck.Reached(lookup, joins, ids, g);
      var p :| GateCheck.BranchPath(lookup, joins, ids, p) && p[|p| - 1] == g;
      WayIff(steps, s, p);
    }
  }

  // ---------- what the rules look at ----------

  /** The lists agree in ids, types and branch lists. */
  ghost predicate Alike(a: seq<Step>, b: seq<Step>) {
    && |a| == |b|
    && forall i :: 0 <= i < |a| ==>
        && a[i].stepId == b[i].stepId && a[i].stepType == b[i].stepType
        && a[i].onSuccess == b[i].onSuccess && a[i].onError == b[i].onError
  }

  lemma AlikeFollows(a: seq<Step>, b: seq<Step>, u: string, v: string)
    requires Alike(a, b)
    ensures Follows(a, u, v) <==> Follows(b, u, v)
    ensures IsGateStep(a, u) <==> IsGateStep(b, u)
  {
    forall i
      ensures LastWith(a, i, u) <==> LastWith(b, i, u)
    {
    }
  }

  lemma AlikeJoins(a: seq<Step>, b: seq<Step>, t: string)
    requires Alike(a, b)
    ensures IsJoin(a, t) <==> IsJoin(b, t)
  {
    assert forall i, k :: MentionedAt(a, i, k, t) <==> MentionedAt(b, i, k, t);
  }

  lemma AlikeGraphs(a: seq<Step>, b: seq<Step>)
    requires Alike(a, b)
    ensures GoesRound(a) <==> GoesRound(b)
    ensures GateInParallel(a) <==> GateInParallel(b)
  {
    hide Follows, IsJoin, IsGateStep, GateInParallel;
    forall u, v
      ensures Follows(a, u, v) <==> Follows(b, u, v)
    {
      AlikeFollows(a, b, u, v);
    }
    forall u
      ensures (IsGateStep(a, u) <==> IsGateStep(b, u)) && (IsJoin(a, u) <==> IsJoin(b, u))
    {
      AlikeFollows(a, b, u, u);
      AlikeJoins(a, b, u);
    }
    forall p
      ensures Circle(a, p) <==> Circle(b, p)
    {
      SameMoves(a, b, p);
    }
    if GateInParallel(a) {
      AlikeWay(a, b);
    }
    if GateInParallel(b) {
      AlikeWay(b, a);
    }
  }

  lemma SameMoves(a: seq<Step>, b: seq<Step>, p: seq<string>)
    requires forall u, v :: Follows(a, u, v) <==> Follows(b, u, v)
    ensures forall i :: MovesAt(a, p, i) <==> MovesAt(b, p, i)
    ensures Circle(a, p) <==> Circle(b, p)
  {
    hide Follows;
  }

  lemma AlikeWay(a: seq<Step>, b: seq<Step>)
    requires Alike(a, b) && GateInParallel(a)
    requires forall u, v :: Follows(a, u, v) <==> Follows(b, u, v)
    requires forall u :: (IsGateStep(a, u) <==> IsGateStep(b, u)) && (IsJoin(a, u) <==> IsJoin(b, u))
    ensures GateInParallel(b)
  {
    hide Follows, IsJoin, IsGateStep;
    var s, p :| s in a && WayToGate(a, s, p);
    var i :| 0 <= i < |a| && a[i] == s;
    SameMoves(a, b, p);
    assert WayToGate(b, b[i], p);
  }
}
