/** The validator's search for infinite loops in branch paths: an iterative depth-first
    search with an explicit stack, the set of nodes on the current path and the path itself. */
module CycleCheck {
  import opened Digraph
  import opened Workflow

  /** A stack entry: a node and what its neighbour iterator has still to yield. */
  datatype Frame = Frame(node: string, pending: set<string>)

  /** Every node that is a key or a target of g. */
  ghost function Nodes(g: Graph): set<string> {
    g.Keys + set u, v | u in g && v in g[u] :: v
  }

  ghost predicate HasRank(g: Graph) {
    exists rank: map<string, nat> :: IsRank(g, rank, |Nodes(g)|)
  }

  /** Finished nodes are numbered in the order they were popped. */
  ghost predicate Finished(g: Graph, fin: map<string, nat>) {
    && (forall u :: u in fin ==> fin[u] < |fin|)
    && (forall u, v :: u in fin && v in Out(g, u) ==> v in fin && fin[v] < fin[u])
  }

  /** The stack, the current path and the finished nodes agree:
      the path is a walk without repetitions, and what a frame's iterator has already
      yielded is either finished or is the next node of the path. */
  ghost predicate Consistent(g: Graph, fin: map<string, nat>, path: seq<string>, stack: seq<Frame>) {
    && |stack| == |path|
    && (forall i, j :: 0 <= i < j < |path| ==> path[i] != path[j])
    && (forall i :: 0 <= i < |path| ==>
        stack[i].node == path[i] && path[i] !in fin && stack[i].pending <= Out(g, path[i]))
    && (forall i :: 0 <= i < |path| - 1 ==> path[i + 1] in Out(g, path[i]))
    && (forall i :: 0 <= i < |path| ==> Explored(g, fin, path, stack[i].pending, i))
  }

  /** What node i of the path has yielded is finished or comes next on the path. */
  ghost predicate Explored(g: Graph, fin: map<string, nat>, path: seq<string>, pending: set<string>, i: nat)
    requires i < |path|
  {
    forall v :: v in Out(g, path[i]) && v !in pending ==> v in fin || (i + 1 < |path| && v == path[i + 1])
  }

  method BuildGraph(steps: seq<Step>) returns (graph: Graph)
    ensures graph == GraphOf(steps)
  {
    graph := map[];
    for i := 0 to |steps|
      invariant graph == GraphOf(steps[..i])
    {
      assert steps[..i + 1][..i] == steps[..i];
      if steps[i].stepId != "" {
        var neighbors := CollectNeighbors(steps[i]);
        graph := graph[steps[i].stepId := neighbors];
      }
    }
    assert steps[..|steps|] == steps;
  }

  method CollectNeighbors(step: Step) returns (neighbors: set<string>)
    ensures neighbors == step.Neighbors()
  {
    var targets := step.SuccessIds() + step.ErrorIds();
    neighbors := {};
    for k := 0 to |targets|
      invariant neighbors == set t | t in targets[..k] && t != ""
    {
      assert targets[..k + 1] == targets[..k] + [targets[k]];
      if targets[k] != "" {
        neighbors := neighbors + {targets[k]};
      }
    }
    assert targets[..|targets|] == targets;
  }

  /** Looks for a cycle. None: the workflow is accepted. Some(p): it is rejected, with p the reported path. */
  method DetectWorkflowCycles(steps: seq<Step>) returns (raised: Option<seq<string>>)
    ensures raised.Some? ==> IsCycle(GraphOf(steps), raised.value)
    ensures raised.None? ==> Acyclic(GraphOf(steps))
    ensures raised.None? ==> HasRank(GraphOf(steps))
  {
    var graph := BuildGraph(steps);
    var visited: set<string> := {};
    ghost var fin: map<string, nat> := map[];
    var starts := graph.Keys;
    while starts != {}
      invariant starts <= graph.Keys
      invariant visited == fin.Keys && visited <= Nodes(graph)
      invariant Finished(graph, fin)
      invariant forall u :: u in graph && u !in starts ==> u in fin
      decreases starts
    {
      var start :| start in starts;
      starts := starts - {start};
      if start !in visited {
        raised, visited, fin := SearchFrom(graph, start, visited, fin);
        if raised.Some? {
          return;
        }
      }
    }
    FinishingOrderIsRank(graph, fin);
    raised := None;
  }

  lemma FinishingOrderIsRank(g: Graph, fin: map<string, nat>)
    requires Finished(g, fin) && g.Keys <= fin.Keys <= Nodes(g)
    ensures HasRank(g) && Acyclic(g)
  {
    SubsetSize(fin.Keys, Nodes(g));
    forall u, v | u in g && v in g[u]
      ensures v in fin && fin[v] < fin[u]
    {
      assert v in Out(g, u);
    }
    assert IsRank(g, fin, |Nodes(g)|);
    RankExcludesCycles(g, fin, |Nodes(g)|);
  }

  lemma {:induction false} SubsetSize(a: set<string>, b: set<string>)
    requires a <= b
    ensures |a| <= |b|
  {
    assert b == a + (b - a);
  }

  method SearchFrom(graph: Graph, start: string, visited0: set<string>, ghost fin0: map<string, nat>)
    returns (raised: Option<seq<string>>, visited: set<string>, ghost fin: map<string, nat>)
    requires start in graph && start !in visited0
    requires visited0 == fin0.Keys && visited0 <= Nodes(graph) && Finished(graph, fin0)
    ensures raised.Some? ==> IsCycle(graph, raised.value)
    ensures raised.None? ==> visited == fin.Keys && visited <= Nodes(graph) && Finished(graph, fin)
    ensures raised.None? ==> fin0.Keys <= fin.Keys && start in fin
  {
    visited, fin := visited0 + {start}, fin0;
    var recStack := {start};
    var path := [start];
    var stack := [Frame(start, Out(graph, start))];
    while stack != []
      invariant Consistent(graph, fin, path, stack)
      invariant visited <= Nodes(graph) && forall u :: u in visited <==> u in fin || u in recStack
      invariant forall u :: u in recStack <==> u in path
      invariant Finished(graph, fin)
      invariant fin0.Keys <= fin.Keys && start in visited
      decreases Nodes(graph) - visited, |stack|, if stack == [] then {} else stack[|stack| - 1].pending
    {
      var top := |stack| - 1;
      var Frame(node, pending) := stack[top];
      if pending != {} {
        var neighbor :| neighbor in pending;
        if neighbor in recStack {
          var cycleStart := IndexOf(path, neighbor);
          raised := Some(path[cycleStart..] + [neighbor]);
          CycleFound(graph, path, cycleStart, neighbor);
          return;
        }
        ghost var before := visited;
        if neighbor in visited {
          SkipKeeps(graph, fin, path, stack, neighbor);
          stack := stack[top := Frame(node, pending - {neighbor})];
        } else {
          PushKeeps(graph, fin, path, stack, neighbor);
          TargetIsNode(graph, node, neighbor);
          visited := visited + {neighbor};
          recStack := recStack + {neighbor};
          path := path + [neighbor];
          stack := stack[top := Frame(node, pending - {neighbor})] + [Frame(neighbor, Out(graph, neighbor))];
          assert neighbor in Nodes(graph) - before && neighbor !in Nodes(graph) - visited;
        }
      } else {
        PopKeeps(graph, fin, path, stack);
        stack := stack[..top];
        recStack := recStack - {node};
        fin := fin[node := |fin|];
        path := path[..top];
      }
    }
    raised := None;
  }

  lemma TargetIsNode(g: Graph, u: string, v: string)
    requires v in Out(g, u)
    ensures v in Nodes(g)
  {
    assert u in g && v in g[u];
  }

  lemma SkipKeeps(g: Graph, fin: map<string, nat>, path: seq<string>, stack: seq<Frame>, v: string)
    requires Consistent(g, fin, path, stack) && stack != []
    requires v in fin
    ensures var top := |stack| - 1;
            Consistent(g, fin, path, stack[top := Frame(stack[top].node, stack[top].pending - {v})])
  {
    var top := |stack| - 1;
    assert Explored(g, fin, path, stack[top].pending, top);
    assert Explored(g, fin, path, stack[top].pending - {v}, top);
  }

  lemma PushKeeps(g: Graph, fin: map<string, nat>, path: seq<string>, stack: seq<Frame>, v: string)
    requires Consistent(g, fin, path, stack) && stack != []
    requires v in stack[|stack| - 1].pending && v !in fin && v !in path
    ensures var top := |stack| - 1;
            Consistent(g, fin, path + [v],
              stack[top := Frame(stack[top].node, stack[top].pending - {v})] + [Frame(v, Out(g, v))])
  {
    var top := |stack| - 1;
    var path' := path + [v];
    var stack' := stack[top := Frame(stack[top].node, stack[top].pending - {v})] + [Frame(v, Out(g, v))];
    forall i | 0 <= i < |path'|
      ensures Explored(g, fin, path', stack'[i].pending, i)
    {
      if i <= top {
        assert Explored(g, fin, path, stack[i].pending, i);
        assert i < top ==> path'[i + 1] == path[i + 1];
      }
    }
  }

  /** A node whose neighbours have all been yielded gets the next finishing number. */
  lemma PopKeeps(g: Graph, fin: map<string, nat>, path: seq<string>, stack: seq<Frame>)
    requires Consistent(g, fin, path, stack) && stack != [] && Finished(g, fin)
    requires stack[|stack| - 1].pending == {}
    ensures var top := |stack| - 1;
            var node := path[top];
            && Consistent(g, fin[node := |fin|], path[..top], stack[..top])
            && Finished(g, fin[node := |fin|])
            && (forall u :: u in path <==> u in path[..top] || u == node)
            && node !in path[..top]
  {
    var top := |stack| - 1;
    var node := path[top];
    var fin' := fin[node := |fin|];
    assert |fin'| == |fin| + 1;
    assert path == path[..top] + [node];
    assert Explored(g, fin, path, stack[top].pending, top);
    forall i | 0 <= i < top
      ensures Explored(g, fin', path[..top], stack[..top][i].pending, i)
    {
      assert Explored(g, fin, path, stack[i].pending, i);
    }
  }

  method IndexOf(path: seq<string>, id: string) returns (k: nat)
    requires id in path
    ensures k < |path| && path[k] == id
    ensures forall i :: 0 <= i < k ==> path[i] != id
  {
    k := 0;
    while path[k] != id
      invariant k < |path| && id !in path[..k]
      decreases |path| - k
    {
      k := k + 1;
    }
  }

  /** The tail of the current path from an earlier visit of its next neighbour closes a cycle. */
  lemma CycleFound(g: Graph, path: seq<string>, k: nat, v: string)
    requires k < |path| && path[k] == v && v in Out(g, path[|path| - 1])
    requires forall i :: 0 <= i < |path| - 1 ==> path[i + 1] in Out(g, path[i])
    ensures IsCycle(g, path[k..] + [v])
  {
    var c := path[k..] + [v];
    forall i | 0 <= i < |c| - 1
      ensures c[i + 1] in Out(g, c[i])
    {
      if i < |c| - 2 {
        assert path[k + i + 1] in Out(g, path[k + i]);
      }
    }
  }
}
