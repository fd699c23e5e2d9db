/** The wait-for graph and its three-colour depth-first search: the search reports a cycle exactly when
    the graph has one. */
module WaitForGraphs {
  import opened Ids

  type Graph = map<TxnId, set<TxnId>>

  datatype Colour = Unvisited | Visiting | Visited
  type Colouring = map<TxnId, Colour>

  // ---------------------------------------------------------------- paths and cycles

  ghost function Successors(g: Graph, n: TxnId): set<TxnId> {
    if n in g then g[n] else {}
  }

  ghost predicate Edge(g: Graph, a: TxnId, b: TxnId) {
    b in Successors(g, a)
  }

  ghost predicate IsPath(g: Graph, p: seq<TxnId>) {
    forall i :: 0 <= i < |p| - 1 ==> Edge(g, p[i], p[i + 1])
  }

  /** A non-empty walk back to its start. */
  ghost predicate IsCycle(g: Graph, p: seq<TxnId>) {
    |p| >= 2 && p[0] == p[|p| - 1] && IsPath(g, p)
  }

  ghost predicate OnCycle(g: Graph, n: TxnId) {
    exists p :: IsCycle(g, p) && p[0] == n
  }

  ghost function Nodes(g: Graph): set<TxnId> {
    g.Keys + set a, b | a in g && b in g[a] :: b
  }

  // ---------------------------------------------------------------- what the colours mean

  ghost function ColourOf(c: Colouring, n: TxnId): Colour {
    if n in c then c[n] else Unvisited
  }

  /** Visited nodes point only to visited nodes, and none of them lies on a cycle. */
  ghost predicate VisitedDone(g: Graph, c: Colouring) {
    && (forall a, b :: ColourOf(c, a) == Visited && Edge(g, a, b) ==> ColourOf(c, b) == Visited)
    && (forall a :: ColourOf(c, a) == Visited ==> !OnCycle(g, a))
  }

  /** The nodes being visited are exactly the path the search is on. */
  ghost predicate VisitingIsPath(g: Graph, c: Colouring, path: seq<TxnId>) {
    && IsPath(g, path)
    && (forall n :: ColourOf(c, n) == Visiting <==> n in path)
  }

  ghost function Remaining(g: Graph, c: Colouring): set<TxnId> {
    set n | n in Nodes(g) && ColourOf(c, n) == Unvisited
  }

  lemma {:induction false} PathStaysVisited(g: Graph, c: Colouring, p: seq<TxnId>, i: nat)
    requires IsPath(g, p) && i < |p| && VisitedDone(g, c) && ColourOf(c, p[0]) == Visited
    ensures ColourOf(c, p[i]) == Visited
  {
    if i > 0 {
      PathStaysVisited(g, c, p, i - 1);
      assert Edge(g, p[i - 1], p[i]);
    }
  }

  /** A node all of whose successors are visited before it is lies on no cycle. */
  lemma FinishedIsAcyclic(g: Graph, c: Colouring, n: TxnId)
    requires VisitedDone(g, c) && ColourOf(c, n) != Visited
    requires forall b :: Edge(g, n, b) ==> ColourOf(c, b) == Visited
    ensures VisitedDone(g, c[n := Visited])
  {
    if OnCycle(g, n) {
      var p :| IsCycle(g, p) && p[0] == n;
      assert Edge(g, p[0], p[1]);
      assert IsPath(g, p[1..]);
      PathStaysVisited(g, c, p[1..], |p| - 2);
      assert false;
    }
    var c' := c[n := Visited];
    forall a, b | ColourOf(c', a) == Visited && Edge(g, a, b) ensures ColourOf(c', b) == Visited {
      assert a == n || ColourOf(c, a) == Visited;
    }
  }

  /** An edge back into the current path closes a cycle. */
  lemma BackEdgeIsCycle(g: Graph, path: seq<TxnId>, n: TxnId)
    requires IsPath(g, path) && |path| > 0 && n in path && Edge(g, path[|path| - 1], n)
    ensures exists p :: IsCycle(g, p)
  {
    var i :| 0 <= i < |path| && path[i] == n;
    var p := path[i..] + [n];
    forall k | 0 <= k < |p| - 1 ensures Edge(g, p[k], p[k + 1]) {
      assert p[k] == path[i + k];
    }
    assert IsCycle(g, p);
  }

  /** When every node with outgoing edges is visited, there is no cycle at all. */
  lemma AllVisitedNoCycle(g: Graph, c: Colouring)
    requires VisitedDone(g, c) && forall n :: n in g ==> ColourOf(c, n) == Visited
    ensures !exists p :: IsCycle(g, p)
  {
    forall p ensures !IsCycle(g, p) {
      if IsCycle(g, p) {
        assert Edge(g, p[0], p[1]);
        assert OnCycle(g, p[0]);
      }
    }
  }

  // ---------------------------------------------------------------- the graph

  class WaitForGraph {
    var graph: Graph

    constructor ()
      ensures graph == map[]
    {
      graph := map[];
    }

    method AddEdge(a: TxnId, b: TxnId)
      modifies this
      ensures forall x, y :: Edge(graph, x, y) <==> Edge(old(graph), x, y) || (x == a && y == b)
    {
      graph := graph[a := (if a in graph then graph[a] else {}) + {b}];
    }

    method RemoveEdge(a: TxnId, b: TxnId)
      modifies this
      ensures forall x, y :: Edge(graph, x, y) <==> Edge(old(graph), x, y) && !(x == a && y == b)
    {
      if a in graph {
        graph := graph[a := graph[a] - {b}];
      }
    }

    method HasCycle() returns (cyclic: bool)
      ensures cyclic <==> exists p :: IsCycle(graph, p)
    {
      var state: Colouring := map[];
      var rest := graph.Keys;
      while rest != {}
        invariant rest <= graph.Keys
        invariant VisitedDone(graph, state) && VisitingIsPath(graph, state, [])
        invariant forall n :: n in graph && n !in rest ==> ColourOf(state, n) == Visited
        decreases rest
      {
        var node :| node in rest;
        rest := rest - {node};
        if node !in state || state[node] == Unvisited {
          var found;
          found, state := DetectCycleDFS(node, state, []);
          if found {
            return true;
          }
        }
      }
      AllVisitedNoCycle(graph, state);
      cyclic := false;
    }

    /** Search from `node`, reached along `path`.  The updated colours are returned, as the reference
        parameter of the program returns them. */
    method DetectCycleDFS(node: TxnId, state: Colouring, ghost path: seq<TxnId>)
        returns (found: bool, state': Colouring)
      requires node in Nodes(graph) && ColourOf(state, node) == Unvisited
      requires VisitedDone(graph, state) && VisitingIsPath(graph, state, path)
      requires path == [] || Edge(graph, path[|path| - 1], node)
      ensures found ==> exists p :: IsCycle(graph, p)
      ensures !found ==> VisitedDone(graph, state') && VisitingIsPath(graph, state', path)
      ensures !found ==> ColourOf(state', node) == Visited
      ensures !found ==> forall n :: ColourOf(state, n) == Visited ==> ColourOf(state', n) == Visited
      decreases Remaining(graph, state)
    {
      state' := state[node := Visiting];
      ghost var here := path + [node];
      assert here[|path|] == node;
      if node in graph {
        var rest := graph[node];
        while rest != {}
          invariant rest <= graph[node]
          invariant VisitedDone(graph, state') && VisitingIsPath(graph, state', here)
          invariant forall b :: b in graph[node] && b !in rest ==> ColourOf(state', b) == Visited
          invariant forall n :: ColourOf(state, n) == Visited ==> ColourOf(state', n) == Visited
          decreases rest
        {
          var neighbour :| neighbour in rest;
          rest := rest - {neighbour};
          assert Edge(graph, node, neighbour);
          if neighbour in state' && state'[neighbour] == Visiting {
            BackEdgeIsCycle(graph, here, neighbour);
            return true, state';
          }
          if neighbour !in state' || state'[neighbour] == Unvisited {
            assert neighbour in Nodes(graph);
            FewerRemaining(graph, state, state', node, path);
            found, state' := DetectCycleDFS(neighbour, state', here);
            if found {
              return;
            }
          }
        }
      }
      FinishedIsAcyclic(graph, state', node);
      PopPath(graph, state', path, node);
      state' := state'[node := Visited];
      found := false;
    }
  }

  /** Marking a node and visiting others leaves fewer nodes unvisited. */
  lemma FewerRemaining(g: Graph, before: Colouring, after: Colouring, n: TxnId, path: seq<TxnId>)
    requires n in Nodes(g) && ColourOf(before, n) == Unvisited
    requires VisitingIsPath(g, before, path) && VisitingIsPath(g, after, path + [n])
    requires forall m :: ColourOf(before, m) == Visited ==> ColourOf(after, m) == Visited
    ensures Remaining(g, after) < Remaining(g, before)
  {
    assert (path + [n])[|path|] == n;
    forall m | ColourOf(after, m) == Unvisited ensures ColourOf(before, m) == Unvisited {
      assert m in path ==> m in path + [n];
    }
    assert n in Remaining(g, before) && n !in Remaining(g, after);
  }

  lemma PopPath(g: Graph, c: Colouring, path: seq<TxnId>, n: TxnId)
    requires VisitingIsPath(g, c, path + [n]) && n !in path
    ensures VisitingIsPath(g, c[n := Visited], path)
  {
    var here := path + [n];
    assert here[|path|] == n && forall i :: 0 <= i < |path| ==> here[i] == path[i];
    assert forall m :: m in here <==> m in path || m == n;
    forall i | 0 <= i < |path| - 1 ensures Edge(g, path[i], path[i + 1]) {
      assert Edge(g, here[i], here[i + 1]);
    }
  }
}
