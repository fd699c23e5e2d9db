/** When the service is stuck, the wait-for graph of its waiting commands has a cycle. */
module Deadlocks {
  import opened Commands
  import opened Engine
  import opened EngineLocks
  import opened Histories
  import opened Ids
  import opened LockModes
  import opened LockTable
  import opened LockHierarchy
  import opened ResourceNames
  import opened Schedulers
  import opened WaitForGraphs

  // ---------------------------------------------------------------- cycles in finite graphs

  ghost predicate HasSuccessor(g: Graph, nodes: set<TxnId>, a: TxnId) {
    exists b :: b in nodes && Edge(g, a, b)
  }

  ghost predicate NoDeadEnd(g: Graph, nodes: set<TxnId>) {
    forall a :: a in nodes ==> HasSuccessor(g, nodes, a)
  }

  ghost function NodesOf(walk: seq<TxnId>): set<TxnId> {
    set x | x in walk
  }

  /** A walk without repetition can be extended until it meets itself. */
  lemma {:induction false} WalkMeetsItself(g: Graph, nodes: set<TxnId>, walk: seq<TxnId>)
    requires NoDeadEnd(g, nodes) && walk != [] && WaitForGraphs.IsPath(g, walk) && Distinct(walk)
    requires NodesOf(walk) <= nodes
    ensures exists p :: IsCycle(g, p)
    decreases nodes - NodesOf(walk)
  {
    hide NoDeadEnd, IsCycle, Edge;
    var n := |walk| - 1;
    var b := SuccessorOf(g, nodes, walk[n]);
    LongerWalk(g, walk, b);
    if b in walk {
      WalkCloses(g, walk, b);
    } else {
      assert b in nodes - NodesOf(walk);
      WalkMeetsItself(g, nodes, walk + [b]);
    }
  }

  lemma SuccessorOf(g: Graph, nodes: set<TxnId>, a: TxnId) returns (b: TxnId)
    requires NoDeadEnd(g, nodes) && a in nodes
    ensures b in nodes && Edge(g, a, b)
  {
    assert HasSuccessor(g, nodes, a);
    b :| b in nodes && Edge(g, a, b);
  }

  lemma LongerWalk(g: Graph, walk: seq<TxnId>, b: TxnId)
    requires walk != [] && WaitForGraphs.IsPath(g, walk) && Edge(g, walk[|walk| - 1], b)
    ensures WaitForGraphs.IsPath(g, walk + [b]) && NodesOf(walk + [b]) == NodesOf(walk) + {b}
  {
    var longer := walk + [b];
    forall i | 0 <= i < |longer| - 1 ensures Edge(g, longer[i], longer[i + 1]) {
      if i < |walk| - 1 {
        assert Edge(g, walk[i], walk[i + 1]);
      }
    }
  }

  lemma WalkCloses(g: Graph, walk: seq<TxnId>, b: TxnId)
    requires WaitForGraphs.IsPath(g, walk + [b]) && b in walk
    ensures exists p :: IsCycle(g, p)
  {
    hide Edge;
    var longer := walk + [b];
    var j :| 0 <= j < |walk| && walk[j] == b;
    var cycle := longer[j..];
    forall i | 0 <= i < |cycle| - 1 ensures Edge(g, cycle[i], cycle[i + 1]) {
      assert Edge(g, longer[j + i], longer[j + i + 1]);
    }
    assert IsCycle(g, cycle);
  }

  /** A finite graph in which every node has a successor has a cycle. */
  lemma EverybodyWaitsOnACycle(g: Graph, nodes: set<TxnId>)
    requires nodes != {} && NoDeadEnd(g, nodes)
    ensures exists p :: IsCycle(g, p)
  {
    hide NoDeadEnd, IsCycle;
    var a :| a in nodes;
    WalkMeetsItself(g, nodes, [a]);
  }

  // ---------------------------------------------------------------- who waits for whom

  /** A lock of `u` is in the way of a call of `t`. */
  ghost predicate InTheWay(s: Table, t: TxnId, r: ResId, m: LockType, a: ResId, u: TxnId) {
    && Above(s.parent, a, r) && u != t
    && exists h :: Lock(u, h) in LocksOn(s, a) && !Compatible(h, if a == r then m else AncestorIntention(m))
  }

  ghost predicate BlockedBy(s: Table, t: TxnId, r: ResId, m: LockType, u: TxnId) {
    exists a :: InTheWay(s, t, r, m, a, u)
  }

  lemma BlockedBySomebody(s: Table, t: TxnId, r: ResId, m: LockType)
    requires BlockedCall(s, t, r, m)
    ensures exists u :: BlockedBy(s, t, r, m, u)
  {
    var a :| Above(s.parent, a, r) && ObstructedAt(s, t, r, m, a);
    var asked := if a == r then m else AncestorIntention(m);
    hide Above;
    var l :| l in LocksOn(s, a) && l.txn != t && !Compatible(l.mode, asked);
    assert l == Lock(l.txn, l.mode);
    assert InTheWay(s, t, r, m, a, l.txn);
    assert BlockedBy(s, t, r, m, l.txn);
  }

  /** The command at `k` is the first waiting one of `t`, and a lock of `u` is in its way. */
  ghost predicate WaitsAt(s: Sys, labels: Labels, ids: Names, pending: seq<Command>, t: TxnId, u: TxnId, k: nat) {
    && k < |pending| && FirstOfItsTxn(pending, k)
    && pending[k].txnLabel in labels && labels[pending[k].txnLabel] == t
    && var p := Segments(pending[k].resourceName);
       p in ids && BlockedBy(s.locks, t, ids[p], ModeOf(WriteOf(pending[k])), u)
  }

  ghost predicate WaitsFor(s: Sys, labels: Labels, ids: Names, pending: seq<Command>, t: TxnId, u: TxnId) {
    exists k: nat :: WaitsAt(s, labels, ids, pending, t, u, k)
  }

  /** The wait-for graph of the active transactions, as addEdge would build it. */
  ghost function WaitGraph(s: Sys, labels: Labels, ids: Names, pending: seq<Command>): Graph {
    map t | t in s.active :: set u | u in s.active && WaitsFor(s, labels, ids, pending, t, u)
  }

  ghost predicate HasWaiting(labels: Labels, pending: seq<Command>, t: TxnId) {
    exists k :: 0 <= k < |pending| && pending[k].txnLabel in labels && labels[pending[k].txnLabel] == t
  }

  lemma {:induction false} FirstExists(pending: seq<Command>, k: nat) returns (j: nat)
    requires k < |pending|
    ensures j <= k && pending[j].txnLabel == pending[k].txnLabel && FirstOfItsTxn(pending, j)
    decreases k
  {
    if FirstOfItsTxn(pending, k) {
      j := k;
    } else {
      var i :| 0 <= i < k && pending[i].txnLabel == pending[k].txnLabel;
      j := FirstExists(pending, i);
    }
  }

  lemma SomebodyIsInTheWay(s: Sys, labels: Labels, ids: Names, pending: seq<Command>, t: TxnId)
    requires FirstsBlocked(s, labels, ids, pending) && t in s.active && HasWaiting(labels, pending, t)
    ensures exists u :: WaitsFor(s, labels, ids, pending, t, u)
  {
    hide BlockedCall, BlockedBy, Segments;
    var k :| 0 <= k < |pending| && pending[k].txnLabel in labels && labels[pending[k].txnLabel] == t;
    var j := FirstExists(pending, k);
    assert Live(labels, s.active, pending[j]);
    var r, m := ids[Segments(pending[j].resourceName)], ModeOf(WriteOf(pending[j]));
    BlockedBySomebody(s.locks, t, r, m);
    var u :| BlockedBy(s.locks, t, r, m, u);
    assert WaitsAt(s, labels, ids, pending, t, u, j);
    assert WaitsFor(s, labels, ids, pending, t, u);
  }

  /** Deadlock: in a covering service where every active transaction has a waiting command, the wait-for graph
      has a cycle, so the cycle search answers yes, unless somebody waits for a lock of a transaction that is no
      longer active. */
  lemma StuckServiceHasCycle(c: Scheduler)
    requires c.Valid() && c.Quiet() && (Covering(c.run, 0) || Undotted(c.resourceIds))
    requires c.Now().active != {} && forall t :: t in c.Now().active ==> HasWaiting(c.txnIds, c.pending, t)
    ensures var s := c.Now();
            || (exists p :: IsCycle(WaitGraph(s, c.txnIds, c.resourceIds, c.pending), p))
            || (exists t, u :: t in s.active && u !in s.active && WaitsFor(s, c.txnIds, c.resourceIds, c.pending, t, u))
  {
    if Undotted(c.resourceIds) {
      UndottedIsCovering(c);
    }
    StuckHasCycle(c.Now(), c.txnIds, c.resourceIds, c.pending);
  }

  lemma StuckHasCycle(s: Sys, labels: Labels, ids: Names, pending: seq<Command>)
    requires FirstsBlocked(s, labels, ids, pending) && s.active != {}
    requires forall t :: t in s.active ==> HasWaiting(labels, pending, t)
    ensures || (exists p :: IsCycle(WaitGraph(s, labels, ids, pending), p))
            || (exists t, u :: t in s.active && u !in s.active && WaitsFor(s, labels, ids, pending, t, u))
  {
    hide FirstsBlocked, HasWaiting, WaitsFor, IsCycle;
    var g := WaitGraph(s, labels, ids, pending);
    if forall t, u :: t in s.active && WaitsFor(s, labels, ids, pending, t, u) ==> u in s.active {
      forall t | t in s.active ensures HasSuccessor(g, s.active, t) {
        SomebodyIsInTheWay(s, labels, ids, pending, t);
        var u :| WaitsFor(s, labels, ids, pending, t, u);
        assert Edge(g, t, u);
      }
      EverybodyWaitsOnACycle(g, s.active);
    }
  }

  /** With nothing left behind by finished transactions, it is a cycle. */
  lemma StuckCleanServiceHasCycle(c: Scheduler)
    requires c.Valid() && c.Quiet() && (Covering(c.run, 0) || Undotted(c.resourceIds))
    requires c.Now().active != {} && forall t :: t in c.Now().active ==> HasWaiting(c.txnIds, c.pending, t)
    requires forall u, r :: u !in c.Now().active ==> !Holds(c.Now().locks, u, r)
    ensures exists p :: IsCycle(WaitGraph(c.Now(), c.txnIds, c.resourceIds, c.pending), p)
  {
    hide Settled, After, IsRun, HasWaiting, Covering, Undotted, IsCycle, WaitsFor;
    StuckServiceHasCycle(c);
    var s := c.Now();
    forall t, u | t in s.active && WaitsFor(s, c.txnIds, c.resourceIds, c.pending, t, u) ensures u in s.active {
      WaitedForHolds(s, c.txnIds, c.resourceIds, c.pending, t, u);
    }
  }

  lemma WaitedForHolds(s: Sys, labels: Labels, ids: Names, pending: seq<Command>, t: TxnId, u: TxnId)
    requires WaitsFor(s, labels, ids, pending, t, u)
    ensures exists r :: Holds(s.locks, u, r)
  {
    hide Above, Segments;
    var k: nat :| WaitsAt(s, labels, ids, pending, t, u, k);
    var r, m := ids[Segments(pending[k].resourceName)], ModeOf(WriteOf(pending[k]));
    var a :| InTheWay(s.locks, t, r, m, a, u);
    assert Holds(s.locks, u, a);
  }
}
