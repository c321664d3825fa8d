/** Finite directed graphs: cycles, ranks, and why a finite graph has one exactly when it lacks the other. */
module Digraphs {

  ghost predicate IsPath<T>(edges: set<(T, T)>, p: seq<T>) {
    forall i :: 0 <= i < |p| - 1 ==> (p[i], p[i + 1]) in edges
  }

  /** A walk along at least one edge that returns to its start. */
  ghost predicate IsCycle<T>(edges: set<(T, T)>, p: seq<T>) {
    |p| >= 2 && p[0] == p[|p| - 1] && IsPath(edges, p)
  }

  ghost predicate HasCycle<T(!new)>(edges: set<(T, T)>) {
    exists p: seq<T> :: IsCycle(edges, p)
  }

  ghost predicate Between<T>(edges: set<(T, T)>, nodes: set<T>) {
    forall e :: e in edges ==> e.0 in nodes && e.1 in nodes
  }

  /** A numbering that every edge increases: a topological order. */
  ghost predicate IsRank<T>(edges: set<(T, T)>, nodes: set<T>, rank: map<T, nat>) {
    nodes <= rank.Keys && forall e :: e in edges && e.0 in nodes && e.1 in nodes ==> rank[e.0] < rank[e.1]
  }

  lemma {:induction false} RankAlongPath<T>(edges: set<(T, T)>, nodes: set<T>, rank: map<T, nat>, p: seq<T>)
    requires Between(edges, nodes) && IsRank(edges, nodes, rank) && |p| >= 2 && IsPath(edges, p)
    ensures p[0] in nodes && p[|p| - 1] in nodes && rank[p[0]] < rank[p[|p| - 1]]
  {
    assert (p[0], p[1]) in edges;
    if |p| > 2 {
      var q := p[1..];
      forall i | 0 <= i < |q| - 1 ensures (q[i], q[i + 1]) in edges { assert (p[i + 1], p[i + 1 + 1]) in edges; }
      RankAlongPath(edges, nodes, rank, p[1..]);
    }
  }

  lemma RankedHasNoCycle<T(!new)>(edges: set<(T, T)>, nodes: set<T>, rank: map<T, nat>)
    requires Between(edges, nodes) && IsRank(edges, nodes, rank)
    ensures !HasCycle(edges)
  {
    forall p: seq<T> | IsCycle(edges, p) ensures false {
      RankAlongPath(edges, nodes, rank, p);
    }
  }

  ghost predicate Distinct<T>(p: seq<T>) {
    forall i, j :: 0 <= i < j < |p| ==> p[i] != p[j]
  }

  lemma {:induction false} DistinctFits<T>(p: seq<T>, nodes: set<T>)
    requires Distinct(p) && forall i :: 0 <= i < |p| ==> p[i] in nodes
    ensures |p| <= |nodes|
  {
    if p != [] {
      DistinctFits(p[1..], nodes - {p[0]});
    }
  }

  ghost predicate HasPredecessor<T(!new)>(edges: set<(T, T)>, nodes: set<T>, v: T) {
    exists u :: u in nodes && (u, v) in edges
  }

  /** Where every node has a predecessor one can walk backwards for as long as one likes. */
  lemma {:induction false} BackwardWalk<T(!new)>(edges: set<(T, T)>, nodes: set<T>, k: nat) returns (p: seq<T>)
    requires nodes != {} && forall v :: v in nodes ==> HasPredecessor(edges, nodes, v)
    ensures |p| == k + 1 && IsPath(edges, p) && forall i :: 0 <= i < |p| ==> p[i] in nodes
  {
    if k == 0 {
      var v :| v in nodes;
      p := [v];
    } else {
      var q := BackwardWalk(edges, nodes, k - 1);
      assert HasPredecessor(edges, nodes, q[0]);
      var u :| u in nodes && (u, q[0]) in edges;
      p := [u] + q;
      forall i | 0 <= i < |p| - 1 ensures (p[i], p[i + 1]) in edges {
        if i > 0 { assert (q[i - 1], q[i - 1 + 1]) in edges; }
      }
    }
  }

  lemma NoSourceHasCycle<T(!new)>(edges: set<(T, T)>, nodes: set<T>)
    requires nodes != {} && forall v :: v in nodes ==> HasPredecessor(edges, nodes, v)
    ensures HasCycle(edges)
  {
    var p := BackwardWalk(edges, nodes, |nodes|);
    if Distinct(p) { DistinctFits(p, nodes); }
    var i, j :| 0 <= i < j < |p| && p[i] == p[j];
    var c := p[i..j + 1];
    forall k | 0 <= k < |c| - 1 ensures (c[k], c[k + 1]) in edges {
      assert (p[i + k], p[i + k + 1]) in edges;
    }
    assert IsCycle(edges, c);
  }

  /** Without a cycle the nodes can be ranked, sources first. */
  lemma {:induction false} AcyclicRank<T(!new)>(edges: set<(T, T)>, nodes: set<T>) returns (rank: map<T, nat>)
    requires !HasCycle(edges)
    ensures IsRank(edges, nodes, rank)
    decreases |nodes|
  {
    if nodes == {} { return map[]; }
    if forall v :: v in nodes ==> HasPredecessor(edges, nodes, v) {
      NoSourceHasCycle(edges, nodes);
    }
    var source :| source in nodes && !HasPredecessor(edges, nodes, source);
    var rest := AcyclicRank(edges, nodes - {source});
    rank := map v | v in nodes :: if v == source then 0 else rest[v] + 1;
    forall e | e in edges && e.0 in nodes && e.1 in nodes ensures rank[e.0] < rank[e.1] {
      assert (e.0, e.1) in edges;
    }
  }

  /** A map that sends edges to edges sends cycles to cycles. */
  lemma CycleImage<S(!new), T(!new)>(edges: set<(S, S)>, images: set<(T, T)>, f: map<S, T>)
    requires forall e :: e in edges ==> e.0 in f && e.1 in f && (f[e.0], f[e.1]) in images
    ensures HasCycle(edges) ==> HasCycle(images)
  {
    if p :| IsCycle(edges, p) {
      forall i | 0 <= i < |p| ensures p[i] in f {
        if i < |p| - 1 { assert (p[i], p[i + 1]) in edges; } else { assert (p[i - 1], p[i - 1 + 1]) in edges; }
      }
      var q := seq(|p|, i requires 0 <= i < |p| => f[p[i]]);
      forall i | 0 <= i < |q| - 1 ensures (q[i], q[i + 1]) in images { assert (p[i], p[i + 1]) in edges; }
      assert IsCycle(images, q);
    }
  }
}
