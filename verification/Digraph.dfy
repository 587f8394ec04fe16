/** Directed graphs over step ids, as the workflow validator builds them:
    a dictionary from a step id to the set of ids it may be followed by. */
module Digraph {

  type Graph = map<string, set<string>>

  /** Successors of a node; a node without an entry has none. */
  function Out(g: Graph, u: string): set<string> {
    if u in g then g[u] else {}
  }

  ghost predicate IsWalk(g: Graph, p: seq<string>) {
    |p| > 0 && forall i :: 0 <= i < |p| - 1 ==> p[i + 1] in Out(g, p[i])
  }

  /** A closed walk of at least one edge. */
  ghost predicate IsCycle(g: Graph, p: seq<string>) {
    |p| >= 2 && IsWalk(g, p) && p[0] == p[|p| - 1]
  }

  ghost predicate Acyclic(g: Graph) {
    forall p :: !IsCycle(g, p)
  }

  /** A rank below n that strictly decreases along every edge. */
  ghost predicate IsRank(g: Graph, rank: map<string, nat>, n: nat) {
    && (forall u :: u in rank ==> rank[u] < n)
    && (forall u, v :: u in g && v in g[u] ==> u in rank && v in rank && rank[v] < rank[u])
  }

  lemma {:induction false} RankDropsAlongWalk(g: Graph, rank: map<string, nat>, n: nat, p: seq<string>)
    requires IsRank(g, rank, n) && IsWalk(g, p) && |p| >= 2
    ensures p[0] in rank && p[|p| - 1] in rank
    ensures rank[p[|p| - 1]] + |p| - 1 <= rank[p[0]]
  {
    var last := |p| - 1;
    var u, v := p[last - 1], p[last];
    assert v in Out(g, u);
    assert u in rank && v in rank && rank[v] < rank[u];
    if |p| > 2 {
      var q := p[..last];
      RankDropsAlongWalk(g, rank, n, q);
      assert q[0] == p[0] && q[|q| - 1] == p[last - 1];
    }
  }

  lemma RankExcludesCycles(g: Graph, rank: map<string, nat>, n: nat)
    requires IsRank(g, rank, n)
    ensures Acyclic(g)
  {
    forall p
      ensures !IsCycle(g, p)
    {
      if IsCycle(g, p) {
        RankDropsAlongWalk(g, rank, n, p);
        assert false;
      }
    }
  }

  /** All the elements of p lie in nodes and are pairwise different, so p is no longer than nodes. */
  lemma {:induction false} DistinctFits(p: seq<string>, nodes: set<string>)
    requires forall i :: 0 <= i < |p| ==> p[i] in nodes
    requires forall i, j :: 0 <= i < j < |p| ==> p[i] != p[j]
    ensures |p| <= |nodes|
  {
    if p != [] {
      var last := |p| - 1;
      DistinctFits(p[..last], nodes - {p[last]});
    }
  }

  /** The stretch of a walk between two visits of one node is a cycle. */
  lemma RepeatIsCycle(g: Graph, p: seq<string>, i: nat, j: nat)
    requires IsWalk(g, p) && i < j < |p| && p[i] == p[j]
    ensures IsCycle(g, p[i..j + 1])
  {
    var c := p[i..j + 1];
    forall k | 0 <= k < |c| - 1
      ensures c[k + 1] in Out(g, c[k])
    {
      assert p[i + k + 1] in Out(g, p[i + k]);
    }
  }

  /** In an acyclic graph a walk visits no node twice, so its length is bounded by the nodes. */
  lemma WalkFits(g: Graph, p: seq<string>, nodes: set<string>)
    requires Acyclic(g) && IsWalk(g, p)
    requires forall i :: 0 <= i < |p| ==> p[i] in nodes
    ensures |p| <= |nodes|
  {
    forall i, j | 0 <= i < j < |p|
      ensures p[i] != p[j]
    {
      if p[i] == p[j] {
        RepeatIsCycle(g, p, i, j);
        assert false;
      }
    }
    DistinctFits(p, nodes);
  }

  lemma CycleLifts(g: Graph, h: Graph, p: seq<string>)
    requires forall u :: u in h ==> h[u] <= Out(g, u)
    requires IsCycle(h, p)
    ensures IsCycle(g, p)
  {
    forall i | 0 <= i < |p| - 1
      ensures p[i + 1] in Out(g, p[i])
    {
      assert p[i + 1] in Out(h, p[i]);
    }
  }

  lemma SubgraphAcyclic(g: Graph, h: Graph)
    requires Acyclic(g)
    requires forall u :: u in h ==> h[u] <= Out(g, u)
    ensures Acyclic(h)
  {
    forall p
      ensures !IsCycle(h, p)
    {
      if IsCycle(h, p) {
        CycleLifts(g, h, p);
        assert false;
      }
    }
  }
}
