/** In workflows without join points, siblings do meet: a world whose steps take the right lists puts both
    into one wave. */
module WaveGateWorld {
  import opened Digraph
  import opened Workflow
  import opened Routing
  import opened WaveRun
  import opened WaveTheorems
  import opened WaveGraph
  import opened WaveGates
  import opened WaveGateDepth
  import opened WaveChoice
  import GateCheck

  /** Lists are explicit and name steps, no step is named twice, there is no cycle, and the cap is no lower
      than the number of steps. */
  ghost predicate Clean(c: Config) {
    Explicit(c) && Closed(c) && NoJoins(c) && Acyclic(GraphOf(c.steps)) && c.maxTransitions >= |Lookup(c.steps)|
  }

  lemma DescentIsWalk(c: Config, p: seq<string>, a: string, d: nat, v: string)
    requires Closed(c) && Descent(c, p, a, d, v)
    ensures IsWalk(GraphOf(c.steps), p)
  {
    hide Lookup, Closed;
    forall i | 0 <= i < |p| - 1
      ensures p[i + 1] in Out(GraphOf(c.steps), p[i])
    {
      assert Follows(c, p[i], p[i + 1]);
      FollowsEdge(c, p[i], p[i + 1]);
    }
  }

  /** Two walks of the same length that end at the same step are the same walk. */
  lemma {:induction false} SameWalk(c: Config, p: seq<string>, q: seq<string>, a: string, b: string, d: nat, v: string)
    requires Closed(c) && NoJoins(c) && Descent(c, p, a, d, v) && Descent(c, q, b, d, v)
    ensures p == q && a == b
  {
    hide Lookup, Follows, Closed, NoJoins;
    if d == 0 {
      assert p == q;
    } else {
      assert Follows(c, p[d - 1], p[d - 1 + 1]) && Follows(c, q[d - 1], q[d - 1 + 1]);
      FollowsEdge(c, p[d - 1], v);
      UniqueParent(c, p[d - 1], q[d - 1], v);
      SameWalk(c, p[..d], q[..d], a, b, d - 1, p[d - 1]);
      assert p == p[..d] + [p[d]] && q == q[..d] + [q[d]];
    }
  }

  /** Different steps of the workflow, none below another. */
  ghost predicate Spread(c: Config, first: seq<string>) {
    && NoDup(first) && (forall a :: a in first ==> a in Lookup(c.steps))
    && forall a, b, d: nat :: a in first && b in first && d >= 1 ==> !Under(c, a, d, b)
  }

  lemma {:induction false} OneWalk(c: Config, first: seq<string>, p: seq<string>, q: seq<string>, a: string, b: string,
                                   j: nat, k: nat, v: string)
    requires Closed(c) && NoJoins(c) && Spread(c, first) && a in first && b in first
    requires Descent(c, p, a, j, v) && Descent(c, q, b, k, v)
    ensures j == k && a == b
    decreases j + k
  {
    hide Lookup, Follows, Closed, NoJoins;
    if j == 0 || k == 0 {
      assert Under(c, a, j, v) && Under(c, b, k, v);
    } else {
      assert Follows(c, p[j - 1], p[j - 1 + 1]) && Follows(c, q[k - 1], q[k - 1 + 1]);
      FollowsEdge(c, p[j - 1], v);
      UniqueParent(c, p[j - 1], q[k - 1], v);
      OneWalk(c, first, p[..j], q[..k], a, b, j - 1, k - 1, p[j - 1]);
    }
  }

  /** A step lies below one step of such a first wave only, at one depth. */
  lemma OneOrigin(c: Config, first: seq<string>, a: string, b: string, j: nat, k: nat, v: string)
    requires Closed(c) && NoJoins(c) && Spread(c, first) && a in first && b in first
    requires Under(c, a, j, v) && Under(c, b, k, v)
    ensures j == k && a == b
  {
    hide Descent, Closed, NoJoins, Spread;
    var p :| Descent(c, p, a, j, v);
    var q :| Descent(c, q, b, k, v);
    OneWalk(c, first, p, q, a, b, j, k, v);
  }

  /** A single step of a workflow without cycles is such a first wave. */
  lemma SingleIsSpread(c: Config, s: string)
    requires Clean(c) && s in Lookup(c.steps)
    ensures Spread(c, [s])
  {
    hide Lookup, Follows, Explicit, Closed, NoJoins, Acyclic;
    forall a, b, d: nat | a in [s] && b in [s] && d >= 1
      ensures !Under(c, a, d, b)
    {
      if p :| Descent(c, p, s, d, s) {
        DescentIsWalk(c, p, s, d, s);
        ClosedWalk(c, p, d);
        assert false;
      }
    }
  }

  lemma ClosedWalk(c: Config, p: seq<string>, d: nat)
    requires Acyclic(GraphOf(c.steps)) && IsWalk(GraphOf(c.steps), p) && d >= 1
    ensures !(|p| == d + 1 && p[0] == p[d])
  {
    hide GraphOf;
    assert !IsCycle(GraphOf(c.steps), p);
  }

  // ---------- every step is dispatched once ----------

  ghost predicate AtDepth(c: Config, first: seq<string>, k: nat, v: string) {
    exists a :: a in first && Under(c, a, k, v)
  }

  /** Dispatched in an earlier wave, so less deep below the start. */
  ghost predicate Earlier(c: Config, first: seq<string>, k: nat, v: string) {
    exists j: nat :: j < k && AtDepth(c, first, j, v)
  }

  ghost predicate WaveAtDepth(c: Config, first: seq<string>, wave: seq<string>, k: nat) {
    NoDup(wave) && forall v :: v in wave ==> v in Lookup(c.steps) && AtDepth(c, first, k, v)
  }

  /** The k-th wave lies k edges below the start, and nothing has been dispatched twice. */
  ghost predicate OnCourse(c: Config, first: seq<string>, r: Run, k: nat) {
    && r.outcome.None? && r.transitions == |r.dispatched| && WaveAtDepth(c, first, r.wave, k)
    && NoDup(r.dispatched) && forall v :: v in r.dispatched ==> v in Lookup(c.steps) && Earlier(c, first, k, v)
  }

  lemma AllDifferent(c: Config, first: seq<string>, r: Run, k: nat)
    requires Clean(c) && Spread(c, first) && OnCourse(c, first, r, k)
    ensures NoDup(r.dispatched + r.wave) && |r.dispatched| + |r.wave| <= c.maxTransitions
  {
    hide Lookup, Under, Explicit, Closed, NoJoins, Acyclic, Spread;
    forall v | v in r.dispatched
      ensures v !in r.wave
    {
      var j: nat :| j < k && AtDepth(c, first, j, v);
      if v in r.wave {
        var a :| a in first && Under(c, a, j, v);
        var b :| b in first && Under(c, b, k, v);
        OneOrigin(c, first, a, b, j, k, v);
        assert false;
      }
    }
    DistinctFits(r.dispatched + r.wave, Lookup(c.steps).Keys);
  }

  lemma NextAtDepth(c: Config, w: World, first: seq<string>, r: Run, k: nat)
    requires Clean(c) && Spread(c, first) && OnCourse(c, first, r, k) && WaveStep(c, w, r).outcome.None?
    ensures WaveAtDepth(c, first, WaveStep(c, w, r).wave, k + 1)
  {
    hide WaveStep, Lookup, Under, Explicit, Follows, NoJoins, Acyclic, Spread;
    WaveFollows(c, w, r);
    StepOrders(c, w, r);
    forall v | v in WaveStep(c, w, r).wave
      ensures v in Lookup(c.steps) && AtDepth(c, first, k + 1, v)
    {
      var u :| u in r.wave && Follows(c, u, v);
      var a :| a in first && Under(c, a, k, u);
      UnderNext(c, a, k, u, v);
    }
  }

  lemma CourseGoesOn(c: Config, w: World, first: seq<string>, r: Run, k: nat)
    requires Clean(c) && Spread(c, first) && OnCourse(c, first, r, k) && WaveStep(c, w, r).outcome.None?
    ensures OnCourse(c, first, WaveStep(c, w, r), k + 1)
  {
    hide WaveStep, Lookup, AtDepth, Clean, Spread;
    AllDifferent(c, first, r, k);
    DispatchesWave(c, w, r);
    NextAtDepth(c, w, first, r, k);
    forall v | v in r.dispatched + r.wave
      ensures v in Lookup(c.steps) && Earlier(c, first, k + 1, v)
    {
      if v in r.dispatched {
        var j: nat :| j < k && AtDepth(c, first, j, v);
      }
    }
  }

  lemma StartsOnCourse(c: Config, first: seq<string>)
    requires Spread(c, first)
    ensures OnCourse(c, first, Start(first), 0)
  {
    hide Lookup, Under;
    forall v | v in first
      ensures AtDepth(c, first, 0, v)
    {
      UnderItself(c, v);
    }
  }

  /** From such a first wave no run of such a workflow dispatches a step twice, whatever the world does. */
  lemma {:induction false} DispatchedOnce(c: Config, w: World, first: seq<string>, k: nat)
    requires Clean(c) && Spread(c, first)
    ensures var r := After(c, w, Start(first), k); r.outcome.None? ==> OnCourse(c, first, r, k)
  {
    hide WaveStep, OnCourse, Clean, Spread;
    if k == 0 {
      StartsOnCourse(c, first);
    } else {
      var r := After(c, w, Start(first), k - 1);
      DispatchedOnce(c, w, first, k - 1);
      if WaveStep(c, w, r).outcome.None? {
        if r.outcome.Some? {
          EndedStep(c, w, r);
        }
        CourseGoesOn(c, w, first, r, k - 1);
      }
    }
  }

  // ---------- a world that takes chosen lists ----------

  /** A run follows every walk of chosen edges. */
  lemma {:induction false} FollowsWalk(c: Config, f: string -> Status, first: seq<string>, p: seq<string>, k: nat)
    requires Clean(c) && Spread(c, first) && IsPlain(f) && k < |p| && p[0] in first
    requires forall i :: 0 <= i < |p| ==> p[i] in Lookup(c.steps)
    requires forall i :: 0 <= i < |p| - 1 ==> Chosen(c, f, p[i], p[i + 1])
    ensures var r := After(c, Answering(f), Start(first), k);
            r.outcome.None? && p[k] in r.wave
  {
    hide WaveStep, Lookup, Chosen, Answering, Spread, IsPlain, Explicit, Closed, NoJoins, Acyclic, AtDepth;
    if k > 0 {
      FollowsWalk(c, f, first, p, k - 1);
      DispatchedOnce(c, Answering(f), first, k - 1);
      assert Chosen(c, f, p[k - 1], p[k - 1 + 1]);
      var r := After(c, Answering(f), Start(first), k - 1);
      AllDifferent(c, first, r, k - 1);
      GoesOnTo(c, f, r, p[k - 1], p[k]);
    }
  }

  // ---------- two walks at once ----------

  /** One list of u holds both. */
  ghost predicate SameList(c: Config, u: string, a: string, b: string) {
    exists ids :: ListOf(c, u, ids) && a in ids && b in ids
  }

  /** Two walks of n edges from the first wave that take the same list wherever they stand at the same step. */
  ghost predicate Fork(c: Config, first: seq<string>, p: seq<string>, q: seq<string>, n: nat) {
    && |p| == |q| == n + 1 && p[0] in first && q[0] in first
    && Descent(c, p, p[0], n, p[n]) && Descent(c, q, q[0], n, q[n])
    && forall i :: 0 <= i < n && p[i] == q[i] ==> SameList(c, p[i], p[i + 1], q[i + 1])
  }

  /** The steps the walks come to. */
  function Marks(p: seq<string>, q: seq<string>): set<string>
    requires p != [] && q != []
  {
    (set x | x in p[1..]) + (set x | x in q[1..])
  }

  /** Some marked step is in the error list of u. */
  predicate MustFail(c: Config, marks: set<string>, u: string) {
    u in Lookup(c.steps) && exists t :: t in marks && t in Lookup(c.steps)[u].ErrorIds()
  }

  /** The steps that must fail do, all others complete. */
  function Choice(c: Config, marks: set<string>): string -> Status {
    u => if MustFail(c, marks, u) then Failed else Completed
  }

  lemma PrefixDescent(c: Config, p: seq<string>, a: string, n: nat, i: nat)
    requires n < |p| && Descent(c, p, a, n, p[n]) && i <= n
    ensures Descent(c, p[..i + 1], a, i, p[i]) && Under(c, a, i, p[i])
  {
    hide Follows;
    assert Descent(c, p[..i + 1], a, i, p[i]);
  }

  /** The parent of a step on a walk stands one edge before it on that walk. */
  lemma ParentOnWalk(c: Config, first: seq<string>, q: seq<string>, n: nat, e: string, u: string, i: nat, m: nat)
    requires Clean(c) && Spread(c, first) && n < |q| && q[0] in first && Descent(c, q, q[0], n, q[n])
    requires 1 <= m <= n && e in first && Under(c, e, i, u) && Follows(c, u, q[m])
    ensures m == i + 1 && u == q[i]
  {
    hide Lookup, Follows, Explicit, Acyclic, NoJoins, Closed, Under, Spread;
    assert Follows(c, q[m - 1], q[m - 1 + 1]);
    FollowsEdge(c, u, q[m]);
    UniqueParent(c, q[m - 1], u, q[m]);
    PrefixDescent(c, q, q[0], n, m - 1);
    OneOrigin(c, first, q[0], e, m - 1, i, u);
  }

  /** Two targets of one list are not in different lists. */
  lemma SameListTwice(c: Config, u: string, a: string, b: string)
    requires Clean(c) && SameList(c, u, a, b)
    ensures u in Lookup(c.steps) && (a in Lookup(c.steps)[u].SuccessIds() ==> b !in Lookup(c.steps)[u].ErrorIds())
  {
    hide Lookup, Explicit, Acyclic, NoJoins;
    var ids :| ListOf(c, u, ids) && a in ids && b in ids;
    assert Follows(c, u, a) && Follows(c, u, b);
    OneList(c, u, a);
    OneList(c, u, b);
  }

  /** No marked step is in the error list of p[i] when p[i + 1] is in its success list. */
  lemma NotInErrors(c: Config, first: seq<string>, p: seq<string>, q: seq<string>, n: nat, i: nat, t: string)
    requires Clean(c) && Spread(c, first) && Fork(c, first, p, q, n) && i < n && p[i] in Lookup(c.steps)
    requires p[i + 1] in Lookup(c.steps) && p[i + 1] in Lookup(c.steps)[p[i]].SuccessIds() && t in Marks(p, q)
    ensures t !in Lookup(c.steps)[p[i]].ErrorIds()
  {
    hide Lookup, Explicit, Acyclic, NoJoins, Closed, Under, Spread, SameList;
    var u := p[i];
    PrefixDescent(c, p, p[0], n, i);
    OneList(c, u, p[i + 1]);
    if t in Lookup(c.steps)[u].ErrorIds() {
      assert Follows(c, u, t);
      if m :| 1 <= m <= n && t == p[m] {
        ParentOnWalk(c, first, p, n, p[0], u, i, m);
      } else {
        var m :| 1 <= m <= n && t == q[m];
        ParentOnWalk(c, first, q, n, p[0], u, i, m);
        SameListTwice(c, u, p[i + 1], q[i + 1]);
      }
      assert false;
    }
  }

  /** On a fork every edge of the first walk is chosen: no other step of the walks is in a wrong list. */
  lemma ForkChosen(c: Config, first: seq<string>, p: seq<string>, q: seq<string>, n: nat, i: nat)
    requires Clean(c) && Spread(c, first) && Fork(c, first, p, q, n) && i < n
    ensures Chosen(c, Choice(c, Marks(p, q)), p[i], p[i + 1])
  {
    hide Lookup, Explicit, Acyclic, NoJoins, Closed, Spread, SameList;
    var u, t := p[i], p[i + 1];
    assert Follows(c, u, t);
    FollowsEdge(c, u, t);
    LookupSound(c.steps);
    assert t == p[1..][i] && t in Marks(p, q);
    if t !in Lookup(c.steps)[u].ErrorIds() {
      hide Marks;
      forall t' | t' in Marks(p, q)
        ensures t' !in Lookup(c.steps)[u].ErrorIds()
      {
        NotInErrors(c, first, p, q, n, i, t');
      }
    }
  }

  lemma WalkSteps(c: Config, p: seq<string>, a: string, n: nat)
    requires Closed(c) && a in Lookup(c.steps) && n < |p| && Descent(c, p, a, n, p[n])
    ensures forall i :: 0 <= i < |p| ==> p[i] in Lookup(c.steps)
  {
    hide Lookup, Closed;
    forall i | 1 <= i < |p|
      ensures p[i] in Lookup(c.steps)
    {
      assert Follows(c, p[i - 1], p[i - 1 + 1]);
      FollowsEdge(c, p[i - 1], p[i]);
    }
  }

  lemma ForkFlips(c: Config, first: seq<string>, p: seq<string>, q: seq<string>, n: nat)
    requires Fork(c, first, p, q, n)
    ensures Fork(c, first, q, p, n) && Marks(p, q) == Marks(q, p)
  {
    hide Descent, ListOf;
    forall i | 0 <= i < n && q[i] == p[i]
      ensures SameList(c, q[i], q[i + 1], p[i + 1])
    {
      assert SameList(c, p[i], p[i + 1], q[i + 1]);
    }
  }

  /** The ends of a fork meet in one wave. */
  lemma ForkMeets(c: Config, first: seq<string>, p: seq<string>, q: seq<string>, n: nat) returns (w: World)
    requires Clean(c) && Spread(c, first) && Fork(c, first, p, q, n)
    ensures var wave := After(c, w, Start(first), n).wave;
            p[n] in wave && q[n] in wave
  {
    hide Lookup, Explicit, Acyclic, NoJoins, MustFail, Marks, After, Chosen, SameList;
    ForkFlips(c, first, p, q, n);
    var f := Choice(c, Marks(p, q));
    w := Answering(f);
    WalkSteps(c, p, p[0], n);
    WalkSteps(c, q, q[0], n);
    hide Spread;
    forall i | 0 <= i < n
      ensures Chosen(c, f, p[i], p[i + 1]) && Chosen(c, f, q[i], q[i + 1])
    {
      ForkChosen(c, first, p, q, n, i);
      ForkChosen(c, first, q, p, n, i);
    }
    FollowsWalk(c, f, first, p, n);
    FollowsWalk(c, f, first, q, n);
  }

  // ---------- siblings are the ends of forks ----------

  lemma Chain(c: Config, p: seq<string>, e: string, m: nat, u: string, q: seq<string>, a: string, d: nat, v: string)
    requires Descent(c, p, e, m, u) && Descent(c, q, a, d, v) && Follows(c, u, a)
    ensures Descent(c, p + q, e, m + 1 + d, v)
  {
    hide Follows;
    forall i | 0 <= i < m + 1 + d
      ensures Follows(c, (p + q)[i], (p + q)[i + 1])
    {
      if i < m {
        assert Follows(c, p[i], p[i + 1]);
      } else if i > m {
        assert Follows(c, q[i - m - 1], q[i - m - 1 + 1]);
      }
    }
  }

  /** Walks of one length from different steps never stand at the same step. */
  lemma NeverMeet(c: Config, p: seq<string>, q: seq<string>, a: string, b: string, d: nat, v: string, v': string,
                  i: nat)
    requires Clean(c) && a != b && Descent(c, p, a, d, v) && Descent(c, q, b, d, v') && i <= d
    ensures p[i] != q[i]
  {
    hide Lookup, Follows, Explicit, Acyclic, NoJoins, Closed;
    if p[i] == q[i] {
      PrefixDescent(c, p, a, d, i);
      PrefixDescent(c, q, b, d, i);
      SameWalk(c, p[..i + 1], q[..i + 1], a, b, i, p[i]);
    }
  }

  lemma PairFork(c: Config, first: seq<string>, a: string, b: string, d: nat, v: string, v': string)
    returns (p: seq<string>, q: seq<string>)
    requires Clean(c) && a != b && a in first && b in first && Under(c, a, d, v) && Under(c, b, d, v')
    ensures Fork(c, first, p, q, d) && p[d] == v && q[d] == v'
  {
    p :| Descent(c, p, a, d, v);
    q :| Descent(c, q, b, d, v');
    hide Clean, SameList, Follows;
    forall i | 0 <= i < d
      ensures p[i] != q[i]
    {
      NeverMeet(c, p, q, a, b, d, v, v', i);
    }
  }

  lemma FollowsList(c: Config, u: string, v: string)
    requires Follows(c, u, v)
    ensures SameList(c, u, v, v)
  {
    var s := Lookup(c.steps)[u];
    assert ListOf(c, u, s.SuccessIds()) && ListOf(c, u, s.ErrorIds());
  }

  lemma ListFork(c: Config, first: seq<string>, e: string, m: nat, u: string, a: string, b: string, d: nat,
                 v: string, v': string) returns (p: seq<string>, q: seq<string>)
    requires Clean(c) && e in first && Under(c, e, m, u) && SameList(c, u, a, b)
    requires a != b && Under(c, a, d, v) && Under(c, b, d, v')
    ensures Fork(c, first, p, q, m + 1 + d) && p[m + 1 + d] == v && q[m + 1 + d] == v'
  {
    var stem :| Descent(c, stem, e, m, u);
    var left :| Descent(c, left, a, d, v);
    var right :| Descent(c, right, b, d, v');
    hide Clean, SameList;
    SameListFollows(c, u, a, b);
    hide Follows;
    p, q := stem + left, stem + right;
    Chain(c, stem, e, m, u, left, a, d, v);
    Chain(c, stem, e, m, u, right, b, d, v');
    forall i | 0 <= i < m + 1 + d && p[i] == q[i]
      ensures SameList(c, p[i], p[i + 1], q[i + 1])
    {
      if i < m {
        assert Follows(c, stem[i], stem[i + 1]);
        FollowsList(c, stem[i], stem[i + 1]);
      } else if i > m {
        NeverMeet(c, left, right, a, b, d, v, v', i - m - 1);
      }
    }
  }

  lemma SameListFollows(c: Config, u: string, a: string, b: string)
    requires SameList(c, u, a, b)
    ensures Follows(c, u, a) && Follows(c, u, b)
  {
  }

  lemma SiblingsDiffer(c: Config, first: seq<string>, v: string, v': string)
    requires Clean(c) && Siblings(c, first, v, v')
    ensures v != v'
  {
    hide Clean, Reachable, Descent;
    var a, b, d: nat :| Parts(c, first, a, b, d, v, v');
    var p :| Descent(c, p, a, d, v);
    var q :| Descent(c, q, b, d, v');
    DescentEnds(c, p, a, d, v);
    DescentEnds(c, q, b, d, v');
    NeverMeet(c, p, q, a, b, d, v, v', d);
  }

  lemma DescentEnds(c: Config, p: seq<string>, a: string, d: nat, v: string)
    requires Descent(c, p, a, d, v)
    ensures |p| == d + 1 && p[d] == v
  {
  }

  /** Siblings meet: some run from the first wave has both in one wave. */
  lemma SiblingsMeet(c: Config, first: seq<string>, v: string, v': string) returns (w: World, k: nat)
    requires Clean(c) && Spread(c, first) && Siblings(c, first, v, v')
    ensures var wave := After(c, w, Start(first), k).wave;
            v in wave && v' in wave && v != v'
  {
    hide Clean, After, Under, Descent, ListOf, Spread;
    var a, b, d: nat :| Parts(c, first, a, b, d, v, v');
    var p, q;
    if a in first && b in first {
      p, q := PairFork(c, first, a, b, d, v, v');
      k := d;
    } else {
      var u, ids :| Reachable(c, first, u) && ListOf(c, u, ids) && a in ids && b in ids;
      var e, m: nat :| e in first && Under(c, e, m, u);
      p, q := ListFork(c, first, e, m, u, a, b, d, v, v');
      k := m + 1 + d;
    }
    SiblingsDiffer(c, first, v, v');
    hide Fork, SameList;
    w := ForkMeets(c, first, p, q, k);
  }

  lemma TwoInWave(wave: seq<string>, v: string, v': string)
    requires v in wave && v' in wave && v != v'
    ensures |wave| >= 2
  {
  }

  /** In a workflow without join points gates run alone, in every world, in runs from a first wave none of whose steps
      lies below another, exactly when no gate lies as far below one of two steps that start side by side as some
      step lies below the other. */
  lemma GatesAloneFromIff(c: Config, first: seq<string>)
    requires Clean(c) && Spread(c, first)
    ensures GatesAlone(c, first) <==> !GateBesideStep(c, first)
  {
    hide After, Lookup, Closed, NoJoins, Acyclic, Siblings, GateCheck.IsGateId, Explicit, Under;
    if GateBesideStep(c, first) {
      var g, v :| GateCheck.IsGateId(Lookup(c.steps), g) && Siblings(c, first, g, v);
      var w, k := SiblingsMeet(c, first, g, v);
      TwoInWave(After(c, w, Start(first), k).wave, g, v);
      assert !Alone(c, After(c, w, Start(first), k).wave);
    } else {
      forall w: World, k: nat
        ensures Alone(c, After(c, w, Start(first), k).wave)
      {
        NoGateBesideAlone(c, w, first, k);
      }
    }
  }

  /** The same for runs that start with a single step. */
  lemma GatesAloneFromStepIff(c: Config, s: string)
    requires Clean(c) && s in Lookup(c.steps)
    ensures GatesAlone(c, [s]) <==> !GateBesideStep(c, [s])
  {
    hide Clean, Spread, GatesAlone, GateBesideStep;
    SingleIsSpread(c, s);
    GatesAloneFromIff(c, [s]);
  }
}
