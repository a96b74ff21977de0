/** A finite graph in which every node has a successor has a cycle. */
module Graphs {

  type Edge = (nat, nat) -> bool

  /** Every node has a successor among the nodes. */
  ghost predicate Serial(nodes: set<nat>, edge: Edge) {
    forall i {:trigger HasSuccessor(nodes, edge, i)} | i in nodes :: HasSuccessor(nodes, edge, i)
  }

  ghost predicate HasSuccessor(nodes: set<nat>, edge: Edge, i: nat) {
    exists k | k in nodes :: edge(i, k)
  }

  lemma Successor(nodes: set<nat>, edge: Edge, i: nat) returns (k: nat)
    requires HasSuccessor(nodes, edge, i)
    ensures k in nodes && edge(i, k)
  {
    k :| k in nodes && edge(i, k);
  }

  /** The walk has an edge from its `q`-th node to the next one. */
  ghost predicate Linked(edge: Edge, walk: seq<nat>, q: nat) {
    q + 1 < |walk| && edge(walk[q], walk[q + 1])
  }

  ghost predicate IsWalk(nodes: set<nat>, edge: Edge, walk: seq<nat>) {
    && (forall q | 0 <= q < |walk| :: walk[q] in nodes)
    && (forall q | 0 <= q < |walk| - 1 :: Linked(edge, walk, q))
  }

  /** The walk returns from its last node to its first. */
  ghost predicate IsCycle(nodes: set<nat>, edge: Edge, path: seq<nat>) {
    path != [] && IsWalk(nodes, edge, path) && edge(path[|path| - 1], path[0])
  }

  lemma {:induction false} WalkOn(nodes: set<nat>, edge: Edge, start: nat, length: nat) returns (walk: seq<nat>)
    requires Serial(nodes, edge) && start in nodes
    ensures |walk| == length + 1 && IsWalk(nodes, edge, walk)
  {
    hide HasSuccessor;
    if length == 0 {
      walk := [start];
    } else {
      var front := WalkOn(nodes, edge, start, length - 1);
      var last := front[|front| - 1];
      assert last in nodes && HasSuccessor(nodes, edge, last);
      var next := Successor(nodes, edge, last);
      walk := front + [next];
      forall q: nat | q < |walk| - 1 ensures Linked(edge, walk, q) {
        assert q < |front| - 1 ==> Linked(edge, front, q);
      }
    }
  }

  /** Pigeonhole: a sequence over `nodes` that is longer than their number repeats one. */
  lemma {:induction false} Repeats(nodes: set<nat>, walk: seq<nat>) returns (a: nat, b: nat)
    requires |walk| > |nodes| && forall q | 0 <= q < |walk| :: walk[q] in nodes
    ensures a < b < |walk| && walk[a] == walk[b]
  {
    var last := walk[|walk| - 1];
    if q: nat :| q < |walk| - 1 && walk[q] == last {
      a, b := q, |walk| - 1;
    } else {
      a, b := Repeats(nodes - {last}, walk[..|walk| - 1]);
    }
  }

  lemma CycleExists(nodes: set<nat>, edge: Edge) returns (path: seq<nat>)
    requires Serial(nodes, edge) && nodes != {}
    ensures IsCycle(nodes, edge, path)
  {
    hide HasSuccessor;
    var start :| start in nodes;
    var walk := WalkOn(nodes, edge, start, |nodes|);
    var a, b := Repeats(nodes, walk);
    path := walk[a..b];
    forall q: nat | q < |path| - 1 ensures Linked(edge, path, q) {
      assert Linked(edge, walk, a + q);
    }
    assert Linked(edge, walk, b - 1);
  }
}
