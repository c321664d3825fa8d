/** Admission of dependency graphs by the protocol decoder: names, edges and the cycle check. */
module GraphRequests {
  import opened Base
  import opened Digraphs

  datatype Edge = Edge(from: string, to: string, condition: string, outcomes: seq<string>)

  /** `sealed` records whether the node's workload and placement pass the job request checks. */
  datatype Node = Node(name: string, sealed: bool)

  /** `headerValid` records the version, kind, namespace, name and label checks. */
  datatype Request = Request(headerValid: bool, nodes: seq<Node>, edges: seq<Edge>, maxActive: int, policy: string)

  const MAX_NODES := 10000
  const MAX_EDGES := 100000

  // ----- what is admitted

  predicate NameEnd(c: char) { 'a' <= c <= 'z' || '0' <= c <= '9' }
  predicate NameChar(c: char) { NameEnd(c) || c == '.' || c == '_' || c == '-' }

  predicate ValidName(s: string) {
    && 1 <= |s| <= 128 && NameEnd(s[0]) && NameEnd(s[|s| - 1])
    && forall i :: 0 <= i < |s| ==> NameChar(s[i])
  }

  predicate ValidPredicate(p: string) {
    p == "success" || p == "failure" || p == "any-terminal" || p == "outcomes"
  }

  predicate ValidOutcome(o: string) {
    o == "success" || o == "failure" || o == "cancelled" || o == "timed_out" || o == "aborted" || o == "lost"
  }

  predicate ValidOutcomes(e: Edge) {
    && (if e.condition == "outcomes" then 1 <= |e.outcomes| <= 6 else e.outcomes == [])
    && (forall i :: 0 <= i < |e.outcomes| ==> ValidOutcome(e.outcomes[i]))
    && (forall i {:trigger e.outcomes[i]} :: 0 < i < |e.outcomes| ==> e.outcomes[i - 1] != e.outcomes[i])
  }

  predicate ValidHeader(r: Request) {
    && r.headerValid && 1 <= |r.nodes| <= MAX_NODES && |r.edges| <= MAX_EDGES
    && 1 <= r.maxActive <= |r.nodes| && (r.policy == "skip" || r.policy == "cancel" || r.policy == "blocked")
  }

  ghost predicate ValidNodes(nodes: seq<Node>) {
    && (forall i :: 0 <= i < |nodes| ==> ValidName(nodes[i].name) && nodes[i].sealed)
    && (forall i, j :: 0 <= i < j < |nodes| ==> nodes[i].name != nodes[j].name)
  }

  function Names(nodes: seq<Node>): set<string> {
    set i | 0 <= i < |nodes| :: nodes[i].name
  }

  predicate ValidEdge(e: Edge, names: set<string>) {
    e.from in names && e.to in names && e.from != e.to && ValidPredicate(e.condition) && ValidOutcomes(e)
  }

  ghost predicate ValidEdges(edges: seq<Edge>, names: set<string>) {
    && (forall i :: 0 <= i < |edges| ==> ValidEdge(edges[i], names))
    && (forall i, j :: 0 <= i < j < |edges| ==> (edges[i].from, edges[i].to) != (edges[j].from, edges[j].to))
  }

  ghost function Arrows(edges: seq<Edge>): set<(string, string)> {
    set i | 0 <= i < |edges| :: (edges[i].from, edges[i].to)
  }

  /** Exactly the graphs the decoder lets through. */
  ghost predicate Admissible(r: Request) {
    ValidHeader(r) && ValidNodes(r.nodes) && ValidEdges(r.edges, Names(r.nodes)) && !HasCycle(Arrows(r.edges))
  }

  // ----- node index

  ghost predicate Indexes(index: map<string, nat>, nodes: seq<Node>) {
    && (forall i :: 0 <= i < |nodes| ==> nodes[i].name in index && index[nodes[i].name] == i)
    && (forall s :: s in index ==> index[s] < |nodes| && nodes[index[s]].name == s)
  }

  method ValidateGraphNodes(nodes: seq<Node>) returns (r: Option<map<string, nat>>)
    ensures r.Some? <==> ValidNodes(nodes)
    ensures r.Some? ==> Indexes(r.value, nodes)
  {
    var index: map<string, nat> := map[];
    for i := 0 to |nodes|
      invariant Indexes(index, nodes[..i])
      invariant ValidNodes(nodes[..i])
    {
      var node := nodes[i];
      if !ValidName(node.name) || !node.sealed { return None; }
      if node.name in index {
        assert nodes[index[node.name]].name == node.name;
        return None;
      }
      index := index[node.name := i];
    }
    assert nodes[..|nodes|] == nodes;
    return Some(index);
  }

  // ----- edges

  function EdgeKey(e: Edge): string {
    e.from + [NUL] + e.to
  }

  /** Names hold no NUL, so joining two of them with one loses nothing. */
  lemma KeysAreInjective(e: Edge, f: Edge)
    requires ValidName(e.from) && ValidName(f.from) && EdgeKey(e) == EdgeKey(f)
    ensures e.from == f.from && e.to == f.to
  {
    assert NUL !in e.from && NUL !in f.from;
    JoinIsInjective(e.from, e.to, f.from, f.to);
  }

  /** Adjacency lists over node positions, as built from the edge list. */
  ghost function ArrowsOf(adjacency: seq<seq<nat>>): set<(nat, nat)> {
    set u: nat, i: nat | u < |adjacency| && i < |adjacency[u]| :: (u, adjacency[u][i])
  }

  ghost predicate InRange(adjacency: seq<seq<nat>>) {
    forall u, i :: 0 <= u < |adjacency| && 0 <= i < |adjacency[u]| ==> adjacency[u][i] < |adjacency|
  }

  /** How many list entries name v, over the first k nodes that are not in done. */
  ghost function Incoming(adjacency: seq<seq<nat>>, done: set<nat>, v: nat, k: nat): nat
    requires k <= |adjacency|
  {
    if k == 0 then 0 else
      Incoming(adjacency, done, v, k - 1) + (if k - 1 in done then 0 else multiset(adjacency[k - 1])[v])
  }

  ghost predicate Degrees(adjacency: seq<seq<nat>>, done: set<nat>, indegree: seq<int>) {
    |indegree| == |adjacency| && forall v: nat :: v < |indegree| ==>
      indegree[v] == Incoming(adjacency, done, v, |adjacency|)
  }

  lemma {:induction false} IncomingAppend(adjacency: seq<seq<nat>>, from: nat, to: nat, v: nat, k: nat)
    requires k <= |adjacency| && from < |adjacency|
    ensures Incoming(adjacency[from := adjacency[from] + [to]], {}, v, k)
         == Incoming(adjacency, {}, v, k) + (if v == to && from < k then 1 else 0)
  {
    if k > 0 { IncomingAppend(adjacency, from, to, v, k - 1); }
  }

  lemma {:induction false} IncomingEmpty(n: nat, v: nat, k: nat)
    requires k <= n
    ensures Incoming(seq(n, _ => []), {}, v, k) == 0
  {
    if k > 0 { IncomingEmpty(n, v, k - 1); }
  }

  lemma {:induction false} IncomingRemove(adjacency: seq<seq<nat>>, done: set<nat>, node: nat, v: nat, k: nat)
    requires k <= |adjacency| && node < |adjacency| && node !in done
    ensures Incoming(adjacency, done, v, k)
         == Incoming(adjacency, done + {node}, v, k) + (if node < k then multiset(adjacency[node])[v] else 0)
  {
    if k > 0 { IncomingRemove(adjacency, done, node, v, k - 1); }
  }

  /** A positive count has a source outside done; a zero count has none. */
  lemma {:induction false} IncomingWitness(adjacency: seq<seq<nat>>, done: set<nat>, v: nat, k: nat)
    requires k <= |adjacency|
    ensures Incoming(adjacency, done, v, k) > 0 <==> exists u: nat :: u < k && u !in done && v in adjacency[u]
  {
    if k > 0 { IncomingWitness(adjacency, done, v, k - 1); }
  }

  // ----- the cycle check

  /** order lists distinct nodes, each after everything that points at it. */
  ghost predicate TopologicalPrefix(adjacency: seq<seq<nat>>, order: seq<nat>) {
    && Distinct(order)
    && (forall p :: 0 <= p < |order| ==> order[p] < |adjacency|)
    && (forall p, u: nat :: 0 <= p < |order| && u < |adjacency| && order[p] in adjacency[u] ==> u in order[..p])
  }

  lemma AllVisitedHasNoCycle(adjacency: seq<seq<nat>>, order: seq<nat>)
    requires InRange(adjacency) && TopologicalPrefix(adjacency, order)
    requires forall v: nat :: v < |adjacency| ==> v in order
    ensures !HasCycle(ArrowsOf(adjacency))
  {
    var nodes := set v | v in order;
    var rank := map v | v in nodes :: Position(order, v);
    forall e | e in ArrowsOf(adjacency) ensures e.0 in nodes && e.1 in nodes && rank[e.0] < rank[e.1] {
      var p := Position(order, e.1);
      assert e.1 in adjacency[e.0] && e.0 in order[..p];
      var q :| 0 <= q < p && order[q] == e.0;
    }
    RankedHasNoCycle<nat>(ArrowsOf(adjacency), nodes, rank);
  }

  ghost function Position(order: seq<nat>, v: nat): (p: nat)
    requires v in order
    ensures p < |order| && order[p] == v
  {
    var p :| 0 <= p < |order| && order[p] == v;
    p
  }

  lemma LeftoverHasCycle(adjacency: seq<seq<nat>>, done: set<nat>)
    requires InRange(adjacency)
    requires exists v: nat :: v < |adjacency| && v !in done
    requires forall v: nat :: v < |adjacency| && v !in done ==> Incoming(adjacency, done, v, |adjacency|) > 0
    ensures HasCycle(ArrowsOf(adjacency))
  {
    var rest := set v: nat | v < |adjacency| && v !in done;
    forall v | v in rest ensures HasPredecessor(ArrowsOf(adjacency), rest, v) {
      IncomingWitness(adjacency, done, v, |adjacency|);
      var u: nat :| u < |adjacency| && u !in done && v in adjacency[u];
      assert (u, v) in ArrowsOf(adjacency);
    }
    var v: nat :| v < |adjacency| && v !in done;
    assert v in rest;
    NoSourceHasCycle<nat>(ArrowsOf(adjacency), rest);
  }

  /** Everything the main loop keeps: order holds the popped nodes, and exactly the nodes whose
      count has dropped to zero and that are not popped yet are ready. */
  ghost predicate KahnState(adjacency: seq<seq<nat>>, indegree: seq<int>, ready: seq<nat>, order: seq<nat>) {
    && TopologicalPrefix(adjacency, order) && Distinct(ready)
    && |indegree| == |adjacency|
    && (forall v :: v in ready ==> v < |adjacency|)
    && (forall v: nat :: v < |indegree| ==> (v in ready <==> v !in order && indegree[v] == 0))
    && (forall v :: v in order ==> indegree[v] == 0)
  }

  ghost function Popped(order: seq<nat>): set<nat> {
    set v | v in order
  }

  /** Popping a node whose predecessors are all popped extends the topological order, and the node
      points at nothing that was popped before or with it. */
  lemma PopExtends(adjacency: seq<seq<nat>>, indegree: seq<int>, ready: seq<nat>, order: seq<nat>, current: nat)
    requires KahnState(adjacency, indegree, ready, order) && Degrees(adjacency, Popped(order), indegree)
    requires ready != [] && current == ready[|ready| - 1]
    ensures current < |adjacency| && KahnState(adjacency, indegree, ready[..|ready| - 1], order + [current])
    ensures forall v :: v in order + [current] ==> v !in adjacency[current]
  {
    var longer := order + [current];
    var shorter := ready[..|ready| - 1];
    assert ready == shorter + [current];
    assert current in ready;
    forall v: nat | v < |indegree| ensures v in shorter <==> v !in longer && indegree[v] == 0 {
      assert v in shorter ==> v in ready && v != current;
    }
    IncomingWitness(adjacency, Popped(order), current, |adjacency|);
    forall p, u: nat | 0 <= p < |longer| && u < |adjacency| && longer[p] in adjacency[u] ensures u in longer[..p] {
      if p < |order| { assert longer[..p] == order[..p]; } else { assert longer[..p] == order && u in Popped(order); }
    }
    assert TopologicalPrefix(adjacency, longer);
    assert Distinct(shorter);
    assert forall v :: v in shorter ==> v in ready;
    forall v | v in longer ensures v !in adjacency[current] {
      assert indegree[v] == 0;
      IncomingWitness(adjacency, Popped(order), v, |adjacency|);
    }
  }

  lemma PopDegrees(adjacency: seq<seq<nat>>, order: seq<nat>, current: nat, v: nat)
    requires current < |adjacency| && current !in order
    ensures Incoming(adjacency, Popped(order), v, |adjacency|)
         == Incoming(adjacency, Popped(order + [current]), v, |adjacency|) + multiset(adjacency[current])[v]
  {
    assert Popped(order + [current]) == Popped(order) + {current};
    IncomingRemove(adjacency, Popped(order), current, v, |adjacency|);
  }

  /** One popped node: its list entries are taken off the counts, and nodes that reach zero become ready. */
  /** What the counts still have to lose: the edges out of nodes not popped, and those in list. */
  ghost predicate Pending(adjacency: seq<seq<nat>>, order: seq<nat>, indegree: seq<int>, list: seq<nat>) {
    && |indegree| == |adjacency|
    && forall v: nat :: v < |indegree| ==>
         indegree[v] == Incoming(adjacency, Popped(order), v, |adjacency|) + multiset(list)[v]
  }

  lemma PopPending(adjacency: seq<seq<nat>>, indegree: seq<int>, order: seq<nat>, current: nat)
    requires Degrees(adjacency, Popped(order), indegree) && current < |adjacency| && current !in order
    ensures Pending(adjacency, order + [current], indegree, adjacency[current])
  {
    forall v: nat | v < |indegree|
      ensures indegree[v] ==
        Incoming(adjacency, Popped(order + [current]), v, |adjacency|) + multiset(adjacency[current])[v]
    {
      PopDegrees(adjacency, order, current, v);
    }
  }

  /** One edge relaxed: its target loses one, and becomes ready at zero. */
  function Relaxed(indegree: seq<int>, ready: seq<nat>, downstream: nat): (seq<int>, seq<nat>)
    requires downstream < |indegree|
  {
    (indegree[downstream := indegree[downstream] - 1],
      if indegree[downstream] == 1 then ready + [downstream] else ready)
  }

  lemma RelaxPending(adjacency: seq<seq<nat>>, order: seq<nat>, indegree: seq<int>, ready: seq<nat>, downstream: nat,
      rest: seq<nat>)
    requires Pending(adjacency, order, indegree, [downstream] + rest) && downstream < |indegree|
    ensures Pending(adjacency, order, Relaxed(indegree, ready, downstream).0, rest) && indegree[downstream] >= 1
  {
    assert multiset([downstream] + rest) == multiset{downstream} + multiset(rest);
  }

  lemma RelaxState(adjacency: seq<seq<nat>>, order: seq<nat>, indegree: seq<int>, ready: seq<nat>, downstream: nat)
    requires KahnState(adjacency, indegree, ready, order)
    requires downstream < |indegree| && downstream !in order && indegree[downstream] >= 1
    ensures var (counts, after) := Relaxed(indegree, ready, downstream); KahnState(adjacency, counts, after, order)
  {
    var (counts, after) := Relaxed(indegree, ready, downstream);
    assert downstream !in ready;
    assert Distinct(after);
  }

  /** Relaxes one edge; rest are the edges still to relax. */
  method RelaxEdge(ghost adjacency: seq<seq<nat>>, indegree: array<int>, ready: seq<nat>, ghost order: seq<nat>,
                   downstream: nat, ghost rest: seq<nat>)
    returns (after: seq<nat>)
    requires KahnState(adjacency, indegree[..], ready, order)
    requires Pending(adjacency, order, indegree[..], [downstream] + rest)
    requires downstream < indegree.Length && downstream !in order
    modifies indegree
    ensures KahnState(adjacency, indegree[..], after, order) && Pending(adjacency, order, indegree[..], rest)
  {
    ghost var counts := indegree[..];
    RelaxPending(adjacency, order, counts, ready, downstream, rest);
    RelaxState(adjacency, order, counts, ready, downstream);
    indegree[downstream] := indegree[downstream] - 1;
    assert indegree[..] == Relaxed(counts, ready, downstream).0;
    return if indegree[downstream] == 0 then ready + [downstream] else ready;
  }

  lemma TargetIsOpen(adjacency: seq<seq<nat>>, order: seq<nat>, current: nat, i: nat)
    requires InRange(adjacency) && current < |adjacency| && i < |adjacency[current]|
    requires forall v :: v in order ==> v !in adjacency[current]
    ensures adjacency[current][i] < |adjacency| && adjacency[current][i] !in order
  {
  }

  lemma NonePending(adjacency: seq<seq<nat>>, order: seq<nat>, indegree: seq<int>)
    requires Pending(adjacency, order, indegree, [])
    ensures Degrees(adjacency, Popped(order), indegree)
  {
  }

  method Relax(adjacency: seq<seq<nat>>, indegree: array<int>, ready: seq<nat>, ghost order: seq<nat>, current: nat)
    returns (after: seq<nat>)
    requires InRange(adjacency) && current < |adjacency| == indegree.Length
    requires KahnState(adjacency, indegree[..], ready, order)
    requires forall v :: v in order ==> v !in adjacency[current]
    requires Pending(adjacency, order, indegree[..], adjacency[current])
    modifies indegree
    ensures KahnState(adjacency, indegree[..], after, order)
    ensures Degrees(adjacency, Popped(order), indegree[..])
  {
    after := ready;
    var list := adjacency[current];
    assert list[0..] == list;
    for i := 0 to |list|
      invariant KahnState(adjacency, indegree[..], after, order)
      invariant Pending(adjacency, order, indegree[..], list[i..])
    {
      TargetIsOpen(adjacency, order, current, i);
      assert list[i..] == [list[i]] + list[i + 1..];
      after := RelaxEdge(adjacency, indegree, after, order, list[i], list[i + 1..]);
    }
    NonePending(adjacency, order, indegree[..]);
  }

  /** Kahn's algorithm on the counts, in place. */
  method GraphContainsCycle(adjacency: seq<seq<nat>>, indegree: array<int>)
    returns (cyclic: bool, ghost order: seq<nat>)
    requires InRange(adjacency) && Degrees(adjacency, {}, indegree[..])
    modifies indegree
    ensures cyclic <==> HasCycle(ArrowsOf(adjacency))
    ensures !cyclic ==> TopologicalPrefix(adjacency, order) && forall v: nat :: v < |adjacency| ==> v in order
  {
    var ready := Sources(indegree);
    var visited := 0;
    order := [];
    assert Popped(order) == {};
    while |ready| > 0
      invariant KahnState(adjacency, indegree[..], ready, order)
      invariant Degrees(adjacency, Popped(order), indegree[..])
      invariant visited == |order|
      decreases |adjacency| - |order|
    {
      var current := ready[|ready| - 1];
      PopExtends(adjacency, indegree[..], ready, order, current);
      PopPending(adjacency, indegree[..], order, current);
      ready := ready[..|ready| - 1];
      visited := visited + 1;
      order := order + [current];
      OrderFits(adjacency, order);
      ready := Relax(adjacency, indegree, ready, order, current);
    }
    OrderFits(adjacency, order);
    cyclic := visited != indegree.Length;
    if cyclic {
      NotAllVisited(adjacency, order);
      LeftoverHasCycle(adjacency, Popped(order));
    } else {
      AllVisitedHasNoCycle(adjacency, order);
    }
  }

  /** The nodes nothing points at. */
  method Sources(indegree: array<int>) returns (ready: seq<nat>)
    ensures Distinct(ready) && (forall v :: v in ready ==> v < indegree.Length)
    ensures forall v: nat :: v < indegree.Length ==> (v in ready <==> indegree[v] == 0)
  {
    ready := [];
    for index := 0 to indegree.Length
      invariant Distinct(ready) && (forall v :: v in ready ==> v < index)
      invariant forall v: nat :: v < index ==> (v in ready <==> indegree[v] == 0)
    {
      assert forall k :: 0 <= k < |ready| ==> ready[k] in ready;
      if indegree[index] == 0 { ready := ready + [index]; }
    }
  }

  lemma Below(n: nat) returns (all: set<nat>)
    ensures |all| == n && forall v: nat :: v in all <==> v < n
  {
    all := {};
    for i := 0 to n
      invariant |all| == i && forall v: nat :: v in all <==> v < i
    {
      all := all + {i};
    }
  }

  /** A topological prefix has room for every node once, and is full only when it holds them all. */
  lemma OrderFits(adjacency: seq<seq<nat>>, order: seq<nat>)
    requires TopologicalPrefix(adjacency, order)
    ensures |order| <= |adjacency|
    ensures |order| == |adjacency| ==> forall v: nat :: v < |adjacency| ==> v in order
  {
    var all := Below(|adjacency|);
    DistinctFits(order, all);
    forall v: nat | v < |adjacency| && v !in order ensures |order| < |adjacency| {
      DistinctFits(order, all - {v});
    }
  }

  lemma {:induction false} NotAllVisited(adjacency: seq<seq<nat>>, order: seq<nat>)
    requires TopologicalPrefix(adjacency, order) && |order| < |adjacency|
    ensures exists v: nat :: v < |adjacency| && v !in Popped(order)
  {
    if forall v: nat :: v < |adjacency| ==> v in Popped(order) {
      var all := Below(|adjacency|);
      assert all <= Popped(order);
      CardinalityOf(order);
      SubsetSize(all, Popped(order));
    }
  }

  lemma {:induction false} CardinalityOf(s: seq<nat>)
    ensures |Popped(s)| <= |s|
  {
    if s != [] {
      CardinalityOf(s[1..]);
      assert Popped(s) == Popped(s[1..]) + {s[0]};
    }
  }

  // ----- edges to adjacency

  /** The lists hold exactly the given edges, by node position. */
  ghost predicate Lists(adjacency: seq<seq<nat>>, edges: seq<Edge>, index: map<string, nat>) {
    && (forall k :: 0 <= k < |edges| ==> edges[k].from in index && edges[k].to in index)
    && (forall u: nat, v: nat {:trigger (u, v) in ArrowsOf(adjacency)} :: (u, v) in ArrowsOf(adjacency) <==>
      exists k :: 0 <= k < |edges| && index[edges[k].from] == u && index[edges[k].to] == v)
  }

  lemma ListsAppend(adjacency: seq<seq<nat>>, edges: seq<Edge>, index: map<string, nat>, e: Edge)
    requires Lists(adjacency, edges, index) && e.from in index && e.to in index && index[e.from] < |adjacency|
    ensures Lists(adjacency[index[e.from] := adjacency[index[e.from]] + [index[e.to]]], edges + [e], index)
  {
    var from, to := index[e.from], index[e.to];
    var after, more := adjacency[from := adjacency[from] + [to]], edges + [e];
    assert ArrowsOf(after) == ArrowsOf(adjacency) + {(from, to)} by {
      assert after[from][|adjacency[from]|] == to;
      forall u: nat, i: nat | u < |adjacency| && i < |adjacency[u]| ensures (u, adjacency[u][i]) in ArrowsOf(after) {
        assert after[u][i] == adjacency[u][i];
      }
    }
    forall u: nat, v: nat
      ensures (u, v) in ArrowsOf(after) <==>
        exists k :: 0 <= k < |more| && index[more[k].from] == u && index[more[k].to] == v
    {
      if k :| 0 <= k < |edges| && index[edges[k].from] == u && index[edges[k].to] == v { assert more[k] == edges[k]; }
      if (u, v) == (from, to) { assert more[|edges|] == e; }
    }
  }

  /** The edges checked so far, with the keys they left behind. */
  ghost predicate Checked(edges: seq<Edge>, names: set<string>, seen: set<string>) {
    ValidEdges(edges, names) && seen == set k | 0 <= k < |edges| :: EdgeKey(edges[k])
  }

  /** A further edge keeps the list valid exactly when it is valid itself and its key is new. */
  lemma CheckNext(edges: seq<Edge>, names: set<string>, seen: set<string>, e: Edge)
    requires Checked(edges, names, seen) && forall s :: s in names ==> ValidName(s)
    ensures ValidEdge(e, names) && EdgeKey(e) !in seen <==> ValidEdges(edges + [e], names)
    ensures ValidEdges(edges + [e], names) ==> Checked(edges + [e], names, seen + {EdgeKey(e)})
  {
    var more := edges + [e];
    if EdgeKey(e) in seen && ValidEdge(e, names) {
      var k :| 0 <= k < |edges| && EdgeKey(edges[k]) == EdgeKey(e);
      assert ValidEdge(edges[k], names);
      KeysAreInjective(edges[k], e);
      assert more[k] == edges[k] && more[|edges|] == e;
    }
    if ValidEdges(more, names) { assert ValidEdge(more[|edges|], names); KeysAppend(edges, names, seen, e); }
  }

  lemma KeysAppend(edges: seq<Edge>, names: set<string>, seen: set<string>, e: Edge)
    requires Checked(edges, names, seen) && ValidEdges(edges + [e], names)
    ensures (set k | 0 <= k < |edges + [e]| :: EdgeKey((edges + [e])[k])) == seen + {EdgeKey(e)}
  {
    var more := edges + [e];
    forall k | 0 <= k < |edges| ensures more[k] == edges[k] {}
    assert more[|edges|] == e;
  }

  lemma ValidPrefixes(edges: seq<Edge>, names: set<string>, k: nat)
    requires k <= |edges|
    ensures ValidEdges(edges, names) ==> ValidEdges(edges[..k], names)
  {
  }

  /** One edge: its positions, or None where the decoder refuses it. */
  method ValidateGraphEdge(e: Edge, index: map<string, nat>, seen: set<string>) returns (r: Option<(nat, nat)>)
    requires forall s, t :: s in index && t in index && index[s] == index[t] ==> s == t
    ensures r.Some? <==> ValidEdge(e, index.Keys) && EdgeKey(e) !in seen
    ensures r.Some? ==> e.from in index && e.to in index && r.value == (index[e.from], index[e.to])
  {
    if e.from !in index || e.to !in index || index[e.from] == index[e.to] { return None; }
    if EdgeKey(e) in seen { return None; }
    if !ValidPredicate(e.condition) { return None; }
    if !ValidOutcomes(e) { return None; }
    return Some((index[e.from], index[e.to]));
  }

  ghost predicate Built(edges: seq<Edge>, index: map<string, nat>, adjacency: seq<seq<nat>>, indegree: seq<int>) {
    InRange(adjacency) && Lists(adjacency, edges, index) && Degrees(adjacency, {}, indegree)
  }

  lemma BuiltAppend(edges: seq<Edge>, index: map<string, nat>, adjacency: seq<seq<nat>>, indegree: seq<int>, e: Edge)
    requires Built(edges, index, adjacency, indegree)
    requires e.from in index && e.to in index && index[e.from] < |adjacency| && index[e.to] < |adjacency|
    ensures var from, to := index[e.from], index[e.to];
      Built(edges + [e], index, adjacency[from := adjacency[from] + [to]], indegree[to := indegree[to] + 1])
  {
    var from, to := index[e.from], index[e.to];
    ListsAppend(adjacency, edges, index, e);
    forall v: nat | v < |adjacency| { IncomingAppend(adjacency, from, to, v, |adjacency|); }
  }

  lemma BuiltNone(index: map<string, nat>, n: nat)
    ensures Built([], index, seq(n, _ => []), seq(n, _ => 0))
  {
    var none: seq<seq<nat>> := seq(n, _ => []);
    forall v: nat | v < n ensures Incoming(none, {}, v, n) == 0 { IncomingEmpty(n, v, n); }
  }

  method ValidateGraphEdges(edges: seq<Edge>, index: map<string, nat>, n: nat)
    returns (ok: bool, adjacency: seq<seq<nat>>, indegree: array<int>)
    requires forall s, t :: s in index && t in index && index[s] == index[t] ==> s == t
    requires forall s :: s in index ==> index[s] < n && ValidName(s)
    ensures ok <==> ValidEdges(edges, index.Keys)
    ensures fresh(indegree)
    ensures ok ==> |adjacency| == n && Built(edges, index, adjacency, indegree[..])
  {
    adjacency := seq(n, _ => []);
    indegree := new int[n](_ => 0);
    var seen: set<string> := {};
    BuiltNone(index, n);
    assert indegree[..] == seq(n, _ => 0);
    for k := 0 to |edges|
      invariant |adjacency| == n == indegree.Length
      invariant Checked(edges[..k], index.Keys, seen)
      invariant Built(edges[..k], index, adjacency, indegree[..])
    {
      var e := edges[k];
      assert edges[..k + 1] == edges[..k] + [e];
      CheckNext(edges[..k], index.Keys, seen, e);
      var ends := ValidateGraphEdge(e, index, seen);
      if ends.None? {
        ValidPrefixes(edges, index.Keys, k + 1);
        return false, adjacency, indegree;
      }
      var (from, to) := ends.value;
      seen := seen + {EdgeKey(e)};
      BuiltAppend(edges[..k], index, adjacency, indegree[..], e);
      adjacency := adjacency[from := adjacency[from] + [to]];
      ghost var counts := indegree[..];
      indegree[to] := indegree[to] + 1;
      assert indegree[..] == counts[to := counts[to] + 1];
    }
    assert edges[..|edges|] == edges;
    ok := true;
  }

  // ----- the whole check

  /** Cycles among names are cycles among positions and the other way round. */
  lemma SameCycles(r: Request, index: map<string, nat>, adjacency: seq<seq<nat>>)
    requires Indexes(index, r.nodes) && Lists(adjacency, r.edges, index)
    ensures HasCycle(ArrowsOf(adjacency)) <==> HasCycle(Arrows(r.edges))
  {
    forall e | e in Arrows(r.edges)
      ensures e.0 in index && e.1 in index && (index[e.0], index[e.1]) in ArrowsOf(adjacency)
    {
      var k :| 0 <= k < |r.edges| && e == (r.edges[k].from, r.edges[k].to);
    }
    CycleImage<string, nat>(Arrows(r.edges), ArrowsOf(adjacency), index);
    var names := map i: nat | i < |r.nodes| :: r.nodes[i].name;
    forall e | e in ArrowsOf(adjacency)
      ensures e.0 in names && e.1 in names && (names[e.0], names[e.1]) in Arrows(r.edges)
    {
      assert (e.0, e.1) in ArrowsOf(adjacency);
      var k :| 0 <= k < |r.edges| && index[r.edges[k].from] == e.0 && index[r.edges[k].to] == e.1;
    }
    CycleImage<nat, string>(ArrowsOf(adjacency), Arrows(r.edges), names);
  }

  method ValidateGraphRequest(r: Request) returns (ok: bool)
    ensures ok <==> Admissible(r)
  {
    if !ValidHeader(r) { return false; }
    var index := ValidateGraphNodes(r.nodes);
    if index.None? { return false; }
    assert index.value.Keys == Names(r.nodes);
    var edgesOk, adjacency, indegree := ValidateGraphEdges(r.edges, index.value, |r.nodes|);
    if !edgesOk { return false; }
    SameCycles(r, index.value, adjacency);
    var cyclic, order := GraphContainsCycle(adjacency, indegree);
    return !cyclic;
  }

  // ----- the same in terms of the request alone

  /** Following the listed edges one after the other leads back to where the first one starts. */
  ghost predicate ClosedWalk(edges: seq<Edge>, walk: seq<nat>) {
    && walk != [] && (forall i :: 0 <= i < |walk| ==> walk[i] < |edges|)
    && edges[walk[|walk| - 1]].to == edges[walk[0]].from
    && forall i :: 0 < i < |walk| ==> Follows(edges, walk, i)
  }

  predicate Follows(edges: seq<Edge>, walk: seq<nat>, i: nat)
    requires 0 < i < |walk| && forall k :: 0 <= k < |walk| ==> walk[k] < |edges|
  {
    edges[walk[i - 1]].to == edges[walk[i]].from
  }

  lemma WalkIsCycle(edges: seq<Edge>, walk: seq<nat>)
    requires ClosedWalk(edges, walk)
    ensures HasCycle(Arrows(edges))
  {
    var path := seq(|walk|, i requires 0 <= i < |walk| => edges[walk[i]].from) + [edges[walk[0]].from];
    forall i | 0 <= i < |path| - 1 ensures (path[i], path[i + 1]) in Arrows(edges) {
      if i + 1 < |walk| { assert Follows(edges, walk, i + 1); }
      assert (path[i], path[i + 1]) == (edges[walk[i]].from, edges[walk[i]].to);
    }
    assert IsCycle(Arrows(edges), path);
  }

  ghost function EdgeAt(edges: seq<Edge>, from: string, to: string): (k: nat)
    requires (from, to) in Arrows(edges)
    ensures k < |edges| && edges[k].from == from && edges[k].to == to
  {
    var k :| 0 <= k < |edges| && (edges[k].from, edges[k].to) == (from, to);
    k
  }

  lemma CycleIsWalk(edges: seq<Edge>, path: seq<string>) returns (walk: seq<nat>)
    requires IsCycle(Arrows(edges), path)
    ensures ClosedWalk(edges, walk)
  {
    walk := [];
    for i := 0 to |path| - 1
      invariant |walk| == i
      invariant forall k :: 0 <= k < i ==> walk[k] < |edges| && edges[walk[k]].from == path[k]
      invariant forall k :: 0 <= k < i ==> edges[walk[k]].to == path[k + 1]
    {
      assert (path[i], path[i + 1]) in Arrows(edges);
      walk := walk + [EdgeAt(edges, path[i], path[i + 1])];
    }
    forall i | 0 < i < |walk| ensures Follows(edges, walk, i) {
      assert edges[walk[i - 1]].to == path[i - 1 + 1];
    }
  }

  /** Every node is sealed and has a name of its own: 1 to 128 lower-case letters, digits, dots, underscores
      and dashes that starts and ends with a letter or digit. */
  ghost predicate NamesNodes(nodes: seq<Node>) {
    && (forall i, j :: 0 <= i < j < |nodes| ==> nodes[i].name != nodes[j].name)
    && (forall n :: n in nodes ==> n.sealed && 1 <= |n.name| <= 128)
    && (forall n, c :: n in nodes && c in n.name ==> 'a' <= c <= 'z' || '0' <= c <= '9' || c in "._-")
    && (forall n :: n in nodes && n.name != [] ==> n.name[0] !in "._-" && n.name[|n.name| - 1] !in "._-")
  }

  /** Every edge joins two nodes, no two edges the same ones, under a condition that lists outcomes, one to
      six and no two neighbours alike, exactly if it is a condition on outcomes. */
  ghost predicate JoinsNodes(r: Request) {
    && (forall e :: e in r.edges ==> e.from != e.to && e.from in Names(r.nodes) && e.to in Names(r.nodes))
    && (forall i, j :: 0 <= i < j < |r.edges| ==> r.edges[i].from != r.edges[j].from || r.edges[i].to != r.edges[j].to)
    && (forall e :: e in r.edges ==>
         e.condition == "outcomes" || (e.condition in ["success", "failure", "any-terminal"] && e.outcomes == []))
    && (forall e :: e in r.edges && e.condition == "outcomes" ==> 1 <= |e.outcomes| <= 6)
    && (forall e, o :: e in r.edges && o in e.outcomes ==>
         o in ["success", "failure", "cancelled", "timed_out", "aborted", "lost"])
    && (forall e, i, j :: e in r.edges && 0 <= i < j < |e.outcomes| && j == i + 1 ==> e.outcomes[i] != e.outcomes[j])
  }

  lemma NodesExactly(nodes: seq<Node>)
    ensures ValidNodes(nodes) <==> NamesNodes(nodes)
  {
    forall s: string ensures ValidName(s) <==>
      && 1 <= |s| <= 128 && (forall c :: c in s ==> 'a' <= c <= 'z' || '0' <= c <= '9' || c in "._-")
      && (s != [] ==> s[0] !in "._-" && s[|s| - 1] !in "._-")
    {
      NameExactly(s);
    }
    if ValidNodes(nodes) {
      forall n | n in nodes ensures ValidName(n.name) && n.sealed {
        var i :| 0 <= i < |nodes| && nodes[i] == n;
      }
    }
  }

  lemma NameExactly(s: string)
    ensures ValidName(s) <==>
      && 1 <= |s| <= 128 && (forall c :: c in s ==> 'a' <= c <= 'z' || '0' <= c <= '9' || c in "._-")
      && (s != [] ==> s[0] !in "._-" && s[|s| - 1] !in "._-")
  {
    forall c ensures NameChar(c) <==> 'a' <= c <= 'z' || '0' <= c <= '9' || c in "._-" {
      assert c in "._-" <==> c == '.' || c == '_' || c == '-';
    }
    if forall i :: 0 <= i < |s| ==> NameChar(s[i]) {
      forall c | c in s ensures NameChar(c) { var i :| 0 <= i < |s| && s[i] == c; }
    }
  }

  lemma EdgeExactly(e: Edge, names: set<string>)
    ensures ValidEdge(e, names) <==>
      && e.from != e.to && e.from in names && e.to in names
      && (e.condition == "outcomes" || (e.condition in ["success", "failure", "any-terminal"] && e.outcomes == []))
      && (e.condition == "outcomes" ==> 1 <= |e.outcomes| <= 6)
      && (forall o :: o in e.outcomes ==> o in ["success", "failure", "cancelled", "timed_out", "aborted", "lost"])
      && (forall i, j :: 0 <= i < j < |e.outcomes| && j == i + 1 ==> e.outcomes[i] != e.outcomes[j])
  {
    forall o ensures ValidOutcome(o) <==> o in ["success", "failure", "cancelled", "timed_out", "aborted", "lost"] {}
    assert e.condition in ["success", "failure", "any-terminal"] <==>
      e.condition == "success" || e.condition == "failure" || e.condition == "any-terminal";
    if forall i :: 0 <= i < |e.outcomes| ==> ValidOutcome(e.outcomes[i]) {
      forall o | o in e.outcomes ensures ValidOutcome(o) { var i :| 0 <= i < |e.outcomes| && e.outcomes[i] == o; }
    }
    if forall i, j :: 0 <= i < j < |e.outcomes| && j == i + 1 ==> e.outcomes[i] != e.outcomes[j] {
      forall i | 0 < i < |e.outcomes| ensures e.outcomes[i - 1] != e.outcomes[i] {}
    }
  }

  lemma EdgesExactly(r: Request)
    ensures ValidEdges(r.edges, Names(r.nodes)) <==> JoinsNodes(r)
  {
    var names := Names(r.nodes);
    if ValidEdges(r.edges, names) {
      forall e | e in r.edges ensures ValidEdge(e, names) { var i :| 0 <= i < |r.edges| && r.edges[i] == e; }
      forall e | e in r.edges { EdgeExactly(e, names); }
    }
    if JoinsNodes(r) {
      forall i | 0 <= i < |r.edges| ensures ValidEdge(r.edges[i], names) {
        assert r.edges[i] in r.edges;
        EdgeExactly(r.edges[i], names);
      }
    }
  }

  /** A request is admitted exactly when it is within the limits, its names and edges are in order, and its
      edges lead nowhere in a circle. */
  lemma AdmittedExactly(r: Request)
    ensures Admissible(r) <==>
      && r.headerValid && 1 <= |r.nodes| <= 10_000 && |r.edges| <= 100_000 && 1 <= r.maxActive <= |r.nodes|
      && r.policy in ["skip", "cancel", "blocked"] && NamesNodes(r.nodes) && JoinsNodes(r)
      && !exists walk :: ClosedWalk(r.edges, walk)
  {
    NodesExactly(r.nodes);
    EdgesExactly(r);
    if walk :| ClosedWalk(r.edges, walk) { WalkIsCycle(r.edges, walk); }
    if HasCycle(Arrows(r.edges)) {
      var path :| IsCycle(Arrows(r.edges), path);
      var walk := CycleIsWalk(r.edges, path);
    }
    assert r.policy in ["skip", "cancel", "blocked"] <==>
      r.policy == "skip" || r.policy == "cancel" || r.policy == "blocked";
  }

  // ----- the store's own check

  /** What the store verifies again before it inserts a graph. */
  ghost predicate StoreAdmits(r: Request) {
    && r.headerValid && 1 <= |r.nodes| <= MAX_NODES
    && 1 <= r.maxActive <= |r.nodes| && (r.policy == "skip" || r.policy == "cancel" || r.policy == "blocked")
    && ValidNodes(r.nodes)
    && (forall i :: 0 <= i < |r.edges| ==> Plausible(r.edges[i], Names(r.nodes)))
    && (forall i, j :: 0 <= i < j < |r.edges| ==> (r.edges[i].from, r.edges[i].to) != (r.edges[j].from, r.edges[j].to))
  }

  predicate Plausible(e: Edge, names: set<string>) {
    e.from in names && e.to in names && e.from != e.to && ValidPredicate(e.condition)
  }

  /** The store leaves exactly three things to the decoder: the number of edges, their outcome lists, and cycles. */
  lemma StoreLeavesToDecoder(r: Request)
    ensures Admissible(r) <==>
      StoreAdmits(r) && |r.edges| <= MAX_EDGES && (forall i :: 0 <= i < |r.edges| ==> ValidOutcomes(r.edges[i]))
                               && !HasCycle(Arrows(r.edges))
  {
    if StoreAdmits(r) && forall i :: 0 <= i < |r.edges| ==> ValidOutcomes(r.edges[i]) {
      forall i | 0 <= i < |r.edges|
        ensures ValidEdge(r.edges[i], Names(r.nodes))
      {
        assert Plausible(r.edges[i], Names(r.nodes));
      }
    }
    if Admissible(r) {
      forall i | 0 <= i < |r.edges|
        ensures Plausible(r.edges[i], Names(r.nodes))
      {
        assert ValidEdge(r.edges[i], Names(r.nodes));
      }
    }
  }

  /** Two nodes that wait for each other pass the store's check. */
  lemma StoreAdmitsCycle() returns (r: Request)
    ensures StoreAdmits(r) && HasCycle(Arrows(r.edges))
  {
    r := Request(true, [Node("a", true), Node("b", true)],
      [Edge("a", "b", "success", []), Edge("b", "a", "success", [])], 1, "skip");
    assert r.nodes[0].name in Names(r.nodes) && r.nodes[1].name in Names(r.nodes);
    assert (r.edges[0].from, r.edges[0].to) in Arrows(r.edges) && (r.edges[1].from, r.edges[1].to) in Arrows(r.edges);
    assert IsCycle(Arrows(r.edges), ["a", "b", "a"]);
  }
}
