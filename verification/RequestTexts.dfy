/** What a stored graph owes the text of the request that submitted it, along every run. */
module RequestTexts {
  import opened Base
  import opened Domain
  import opened EdgePredicates
  import opened Propagation
  import opened ControlPlane
  import opened Invariants
  import opened Preservation
  import opened Dispatching
  import Requests = GraphRequests

  // ----- outcomes and conditions on the wire

  function WireName(o: Outcome): string {
    match o
    case Success => "success"
    case Failure => "failure"
    case Cancelled => "cancelled"
    case TimedOut => "timed_out"
    case Aborted => "aborted"
    case Lost => "lost"
  }

  /** The decoder's outcome names are exactly the wire names, and reading one back gives the outcome. */
  lemma NamesRoundTrip(text: string)
    ensures Requests.ValidOutcome(text) <==> exists o :: WireName(o) == text
    ensures Requests.ValidOutcome(text) ==> WireName(OutcomeNamed(text)) == text
    ensures forall o :: OutcomeNamed(WireName(o)) == o
  {
    assert WireName(Success) == "success" && WireName(Failure) == "failure" && WireName(Cancelled) == "cancelled";
    assert WireName(TimedOut) == "timed_out" && WireName(Aborted) == "aborted" && WireName(Lost) == "lost";
  }

  /** What the text of an edge asks of the outcome of its upstream. */
  predicate TextHolds(e: Requests.Edge, o: Option<Outcome>) {
    || e.condition == "any-terminal"
    || (e.condition == "success" && o == Some(Success))
    || (e.condition == "failure"
         && (o == Some(Failure) || o == Some(TimedOut) || o == Some(Aborted) || o == Some(Lost)))
    || (e.condition == "outcomes" && o.Some? && WireName(o.value) in e.outcomes)
  }

  lemma OutcomeListMeans(r: Requests.Request, ids: seq<nat>, e: Requests.Edge, o: Outcome)
    requires |ids| == |r.nodes| && Requests.ValidEdge(e, Requests.Names(r.nodes))
    ensures o in EdgeFor(r, ids, e).outcomes <==> WireName(o) in e.outcomes
  {
    var stored := EdgeFor(r, ids, e).outcomes;
    NamesRoundTrip(WireName(o));
    if o in stored {
      var i :| 0 <= i < |stored| && stored[i] == o;
      NamesRoundTrip(e.outcomes[i]);
      assert e.outcomes[i] == WireName(o);
    }
    if WireName(o) in e.outcomes {
      var i :| 0 <= i < |e.outcomes| && e.outcomes[i] == WireName(o);
      assert stored[i] == o;
    }
  }

  /** The stored edge joins the jobs of the two nodes that the request's edge names. */
  ghost predicate Joins(r: Requests.Request, ids: seq<nat>, k: nat, e: Edge)
    requires |ids| == |r.nodes| && k < |r.edges|
  {
    forall a :: 0 <= a < |ids| ==>
      && (ids[a] == e.upstream <==> r.nodes[a].name == r.edges[k].from)
      && (ids[a] == e.downstream <==> r.nodes[a].name == r.edges[k].to)
  }

  /** Every stored edge says what the request's edge says. */
  lemma StoredEdgeMeans(r: Requests.Request, ids: seq<nat>, k: nat)
    requires Requests.Admissible(r) && |ids| == |r.nodes| && k < |r.edges|
    requires forall i, j :: 0 <= i < j < |ids| ==> ids[i] != ids[j]
    ensures |GraphFor(r, ids).edges| == |r.edges| && Joins(r, ids, k, GraphFor(r, ids).edges[k])
    ensures forall o :: Holds(GraphFor(r, ids).edges[k], o) <==> TextHolds(r.edges[k], o)
  {
    var e := r.edges[k];
    assert Requests.ValidEdge(e, Requests.Names(r.nodes));
    assert GraphFor(r, ids).edges[k] == EdgeFor(r, ids, e);
    forall o: Option<Outcome> ensures Holds(EdgeFor(r, ids, e), o) <==> TextHolds(e, o) {
      if o.Some? { OutcomeListMeans(r, ids, e, o.value); }
    }
  }

  // ----- a submitted graph keeps its request

  /** The run's next step stores graph g from request r. */
  ghost predicate Stores(w: World, g: nat, r: Requests.Request, ids: seq<nat>, specs: seq<Spec>) {
    g !in w.graphs && g in SubmitGraph(w, g, r, ids, specs).graphs
  }

  /** Whatever happens after its submission, the graph is the one requested, at a later revision. */
  lemma GraphKeepsRequest(namespaces: map<nat, NamespacePolicy>, steps: seq<Step>, g: nat, r: Requests.Request,
      ids: seq<nat>, specs: seq<Spec>, more: seq<Step>)
    requires Stores(Run(Empty(namespaces), steps), g, r, ids, specs)
    ensures Requests.Admissible(r) && |ids| == |r.nodes| && forall i, j :: 0 <= i < j < |ids| ==> ids[i] != ids[j]
    ensures var v := Run(Empty(namespaces), steps + [SubmitGraphStep(g, r, ids, specs)] + more);
      g in v.graphs && SameGraph(GraphFor(r, ids), v.graphs[g])
  {
    var stored := steps + [SubmitGraphStep(g, r, ids, specs)];
    assert stored[..|stored| - 1] == steps;
    RunOnward(Empty(namespaces), stored, more);
  }

  /** A node of the run's graph that was dispatched had each of its dependencies end as the request's text asks. */
  lemma DispatchedAsRequested(namespaces: map<nat, NamespacePolicy>, steps: seq<Step>, g: nat, r: Requests.Request,
      ids: seq<nat>, specs: seq<Spec>, more: seq<Step>, k: nat, from: nat, to: nat)
    requires Stores(Run(Empty(namespaces), steps), g, r, ids, specs)
    requires k < |r.edges| && from < |ids| && to < |ids| && |ids| == |r.nodes|
    requires r.nodes[from].name == r.edges[k].from && r.nodes[to].name == r.edges[k].to
    ensures var v := Run(Empty(namespaces), steps + [SubmitGraphStep(g, r, ids, specs)] + more);
      ids[to] in v.jobs && Dispatched(v.jobs[ids[to]].life) ==>
        && ids[from] in v.jobs && Terminal(v.jobs[ids[from]].life)
        && TextHolds(r.edges[k], OutcomeOf(v.jobs[ids[from]].life))
  {
    var run := steps + [SubmitGraphStep(g, r, ids, specs)] + more;
    var v := Run(Empty(namespaces), run);
    GraphKeepsRequest(namespaces, steps, g, r, ids, specs, more);
    StoredEdgeMeans(r, ids, k);
    Reachable(namespaces, run);
    assert GraphSafe(v.jobs, v.graphs[g]);
    assert GraphFor(r, ids).edges[k] in v.graphs[g].edges;
  }

  // ----- dispositions

  /** The job was given up by its graph's policy. */
  predicate Marked(job: Job) {
    job.life.Dropped? && job.life.disposition.Some?
  }

  ghost predicate ByPolicy(policy: Policy, job: Job) {
    match policy
    case SkipUnsatisfied => job.life == Dropped(Aborted, Some(Skipped)) && job.desire == ToRun
    case BlockUnsatisfied => job.life == Dropped(Aborted, Some(Blocked)) && job.desire == ToRun
    case CancelUnsatisfied => job.life == Dropped(Cancelled, Some(CancelledByPolicy)) && job.desire == ToCancel
  }

  /** All its upstreams have ended, one of them against its edge. */
  ghost predicate Refuted(jobs: Jobs, g: Graph, j: nat) {
    && (forall e :: e in g.edges && e.downstream == j ==> Finished(jobs, e))
    && (exists e :: e in g.edges && e.downstream == j && !Satisfied(jobs, e))
  }

  ghost predicate Justified(w: World, j: nat)
    requires j in w.jobs
  {
    Marked(w.jobs[j]) ==>
      && w.jobs[j].spec.group.InGraph? && w.jobs[j].spec.group.graph in w.graphs
      && ByPolicy(w.graphs[w.jobs[j].spec.group.graph].policy, w.jobs[j])
      && Refuted(w.jobs, w.graphs[w.jobs[j].spec.group.graph], j)
  }

  ghost predicate AllJustified(w: World) {
    forall j :: j in w.jobs ==> Justified(w, j)
  }

  ghost predicate MarksNone(w: World, v: World) {
    forall j :: j in v.jobs && Marked(v.jobs[j]) ==> j in w.jobs && Marked(w.jobs[j])
  }

  lemma RefutedLater(w: World, v: World, g: nat, j: nat)
    requires Onward(w, v) && g in w.graphs && Refuted(w.jobs, w.graphs[g], j)
    ensures g in v.graphs && Refuted(v.jobs, v.graphs[g], j)
  {
    assert SameGraph(w.graphs[g], v.graphs[g]);
    forall e | e in v.graphs[g].edges && e.downstream == j
      ensures Finished(v.jobs, e) && (Satisfied(v.jobs, e) <==> Satisfied(w.jobs, e))
    {
      assert Finished(w.jobs, e) && Later(w.jobs[e.upstream], v.jobs[e.upstream]);
    }
  }

  lemma JustifiedLater(w: World, v: World, j: nat)
    requires Onward(w, v) && j in w.jobs && Marked(w.jobs[j]) && Justified(w, j)
    ensures j in v.jobs && Justified(v, j)
  {
    assert Later(w.jobs[j], v.jobs[j]);
    RefutedLater(w, v, w.jobs[j].spec.group.graph, j);
  }

  lemma MarksNoneJustified(w: World, v: World)
    requires AllJustified(w) && Onward(w, v) && MarksNone(w, v)
    ensures AllJustified(v)
  {
    forall j | j in v.jobs ensures Justified(v, j) {
      if Marked(v.jobs[j]) { JustifiedLater(w, v, j); }
    }
  }

  lemma {:induction false} CancelAllMarksNone(w: World, ids: seq<nat>)
    ensures MarksNone(w, CancelAll(w, ids))
  {
    if ids != [] { CancelAllMarksNone(w, ids[..|ids| - 1]); }
  }

  lemma CompleteCollectionMarksNone(w: World, i: nat)
    ensures MarksNone(w, CompleteCollection(w, i))
  {
    if i in w.jobs && w.jobs[i].spec.group.InCollection? && w.jobs[i].spec.group.collection in w.collections {
      CancelAllMarksNone(w, w.collections[w.jobs[i].spec.group.collection].items);
    }
  }

  lemma PropagateJustifies(w: World, v: World, g: nat, j: nat)
    requires Linked(w) && g in w.graphs && v.jobs == Propagate(w.jobs, w.graphs[g]) && j in v.jobs && Marked(v.jobs[j])
    requires g in v.graphs && SameGraph(w.graphs[g], v.graphs[g])
    ensures j in w.jobs && (v.jobs[j] == w.jobs[j] || Justified(v, j))
  {
    assert GraphLinked(w, g);
    PropagateEffect(w.jobs, w.graphs[g]);
    assert DisposedRightly(w.jobs, v.jobs, w.graphs[g], j);
  }

  lemma CompleteGraphJustified(w: World, i: nat)
    requires Linked(w) && AllJustified(w)
    ensures AllJustified(CompleteGraph(w, i))
  {
    var v := CompleteGraph(w, i);
    CompleteGraphSettling(w, i);
    SettlingIsOnward(w, v);
    if v != w {
      forall j | j in v.jobs ensures Justified(v, j) {
        if Marked(v.jobs[j]) {
          PropagateJustifies(w, v, w.jobs[i].spec.group.graph, j);
          if v.jobs[j] == w.jobs[j] { JustifiedLater(w, v, j); }
        }
      }
    }
  }

  lemma RecordJustified(w: World, i: nat, who: Identity, e: Event)
    requires Linked(w) && AllJustified(w)
    ensures AllJustified(Record(w, i, who, e).0)
  {
    RecordCases(w, i, who, e);
    if Record(w, i, who, e).0 != w {
      var u := Observed(w, i, e);
      RowSettling(w, u, i);
      SettlingLinked(w, u);
      SettlingIsOnward(w, u);
      MarksNoneJustified(w, u);
      if IsCompletion(e.kind) { CompletionJustified(u, i); }
    }
  }

  lemma CompletionJustified(u: World, i: nat)
    requires Linked(u) && AllJustified(u)
    ensures AllJustified(CompleteGraph(CompleteCollection(u, i), i))
  {
    var c := CompleteCollection(u, i);
    CompleteCollectionSettling(u, i);
    SettlingLinked(u, c);
    SettlingIsOnward(u, c);
    CompleteCollectionMarksNone(u, i);
    MarksNoneJustified(u, c);
    CompleteGraphJustified(c, i);
  }

  lemma CancelJobJustified(w: World, i: nat)
    requires Linked(w) && AllJustified(w)
    ensures AllJustified(CancelJob(w, i))
  {
    var u := CancelRow(w, i);
    CancelRowSettling(w, i);
    SettlingLinked(w, u);
    SettlingIsOnward(w, u);
    MarksNoneJustified(w, u);
    CompleteGraphJustified(u, i);
  }

  lemma AddingMarksNone(w: World, v: World, ids: seq<nat>, specs: seq<Spec>)
    requires |ids| == |specs| && v.jobs == AddJobs(w.jobs, ids, specs)
    ensures MarksNone(w, v)
  {
    AddJobsKeeps(w.jobs, ids, specs);
  }

  lemma OtherStepsMarkNone(w: World, s: Step)
    requires !s.RecordStep? && !s.CancelJobStep?
    ensures MarksNone(w, Apply(w, s))
  {
    var v := Apply(w, s);
    if v != w {
      if s.CancelGraphStep? { CancelAllMarksNone(w, w.graphs[s.g].nodes); }
      if s.SubmitCollectionStep? || s.SubmitGraphStep? { AddingMarksNone(w, v, s.ids, s.specs); }
    }
  }

  lemma StepJustified(w: World, s: Step)
    requires Linked(w) && AllJustified(w)
    ensures AllJustified(Apply(w, s))
  {
    if s.RecordStep? {
      RecordJustified(w, s.j, s.who, s.event);
    } else if s.CancelJobStep? {
      CancelJobJustified(w, s.j);
    } else {
      StepOnward(w, s);
      OtherStepsMarkNone(w, s);
      MarksNoneJustified(w, Apply(w, s));
    }
  }

  /** In every reachable state a job was given up only as a node of a graph, as the graph's policy says,
      after all its upstreams ended and one of them against its edge. */
  lemma {:induction false} GivenUpIsJustified(namespaces: map<nat, NamespacePolicy>, steps: seq<Step>)
    ensures AllJustified(Run(Empty(namespaces), steps))
  {
    if steps != [] {
      var before := steps[..|steps| - 1];
      GivenUpIsJustified(namespaces, before);
      Reachable(namespaces, before);
      StepJustified(Run(Empty(namespaces), before), steps[|steps| - 1]);
    }
  }

  /** How the request's policy text has a node end that is given up. */
  predicate TextDisposes(policy: string, job: Job) {
    || (policy == "skip" && job.life == Dropped(Aborted, Some(Skipped)) && job.desire == ToRun)
    || (policy == "blocked" && job.life == Dropped(Aborted, Some(Blocked)) && job.desire == ToRun)
    || (policy == "cancel" && job.life == Dropped(Cancelled, Some(CancelledByPolicy)) && job.desire == ToCancel)
  }

  /** A node that is given up ends as the request's policy text says. */
  lemma GivenUpAsRequested(namespaces: map<nat, NamespacePolicy>, steps: seq<Step>, g: nat, r: Requests.Request,
      ids: seq<nat>, specs: seq<Spec>, more: seq<Step>, i: nat)
    requires Stores(Run(Empty(namespaces), steps), g, r, ids, specs) && i < |ids|
    ensures var v := Run(Empty(namespaces), steps + [SubmitGraphStep(g, r, ids, specs)] + more);
      ids[i] in v.jobs && (Marked(v.jobs[ids[i]]) ==> TextDisposes(r.policy, v.jobs[ids[i]]))
  {
    var run := steps + [SubmitGraphStep(g, r, ids, specs)] + more;
    var v := Run(Empty(namespaces), run);
    GraphKeepsRequest(namespaces, steps, g, r, ids, specs, more);
    Reachable(namespaces, run);
    GivenUpIsJustified(namespaces, run);
    assert GraphLinked(v, g) && ids[i] in v.graphs[g].nodes;
    assert Justified(v, ids[i]);
  }

  // ----- the fate of a node, told by the request

  /** Edge k of the request leads from node a to node i. */
  predicate Leads(r: Requests.Request, k: nat, a: nat, i: nat) {
    k < |r.edges| && a < |r.nodes| && i < |r.nodes| && r.edges[k].from == r.nodes[a].name
      && r.edges[k].to == r.nodes[i].name
  }

  /** Every dependency of node i has ended. */
  ghost predicate AllEnded(r: Requests.Request, ids: seq<nat>, jobs: Jobs, i: nat)
    requires |ids| == |r.nodes|
  {
    forall k: nat, a: nat :: Leads(r, k, a, i) ==> ids[a] in jobs && Terminal(jobs[ids[a]].life)
  }

  /** Every dependency of node i has ended as the text of its edge asks. */
  ghost predicate AllAsAsked(r: Requests.Request, ids: seq<nat>, jobs: Jobs, i: nat)
    requires |ids| == |r.nodes|
  {
    forall k: nat, a: nat :: Leads(r, k, a, i) ==>
      ids[a] in jobs && Terminal(jobs[ids[a]].life) && TextHolds(r.edges[k], OutcomeOf(jobs[ids[a]].life))
  }

  /** The stored edge k is an edge into node i exactly if the request's is, and then comes from the node it names. */
  lemma EdgeLeads(r: Requests.Request, ids: seq<nat>, k: nat, i: nat) returns (a: nat)
    requires Requests.Admissible(r) && |ids| == |r.nodes| && k < |r.edges| && i < |ids|
    requires forall i, j :: 0 <= i < j < |ids| ==> ids[i] != ids[j]
    ensures a < |ids| && GraphFor(r, ids).edges[k].upstream == ids[a] && r.nodes[a].name == r.edges[k].from
    ensures GraphFor(r, ids).edges[k].downstream == ids[i] <==> Leads(r, k, a, i)
    ensures forall b: nat :: Leads(r, k, b, i) ==> b == a
  {
    StoredEdgeMeans(r, ids, k);
    assert GraphFor(r, ids).edges[k] == EdgeFor(r, ids, r.edges[k]);
    a :| 0 <= a < |ids| && ids[a] == GraphFor(r, ids).edges[k].upstream;
  }

  /** An edge of the stored graph, read on the request. */
  lemma EdgeTold(r: Requests.Request, ids: seq<nat>, jobs: Jobs, k: nat, i: nat) returns (a: nat)
    requires Requests.Admissible(r) && |ids| == |r.nodes| && k < |r.edges| && i < |ids|
    requires forall i, j :: 0 <= i < j < |ids| ==> ids[i] != ids[j]
    ensures var e := GraphFor(r, ids).edges[k];
      && a < |ids| && (e.downstream == ids[i] <==> Leads(r, k, a, i)) && (forall b: nat :: Leads(r, k, b, i) ==> b == a)
      && (Finished(jobs, e) <==> ids[a] in jobs && Terminal(jobs[ids[a]].life))
      && (Satisfied(jobs, e) <==> Finished(jobs, e) && TextHolds(r.edges[k], OutcomeOf(jobs[ids[a]].life)))
  {
    a := EdgeLeads(r, ids, k, i);
    StoredEdgeMeans(r, ids, k);
  }

  ghost predicate EdgesInto(edges: seq<Edge>, jobs: Jobs, j: nat, asAsked: bool) {
    forall e :: e in edges && e.downstream == j ==> Finished(jobs, e) && (asAsked ==> Satisfied(jobs, e))
  }

  lemma EdgesIntoTold(r: Requests.Request, ids: seq<nat>, jobs: Jobs, i: nat, asAsked: bool)
    requires Requests.Admissible(r) && |ids| == |r.nodes| && i < |ids|
    requires forall i, j :: 0 <= i < j < |ids| ==> ids[i] != ids[j]
    requires if asAsked then AllAsAsked(r, ids, jobs, i) else AllEnded(r, ids, jobs, i)
    ensures EdgesInto(GraphFor(r, ids).edges, jobs, ids[i], asAsked)
  {
    var edges := GraphFor(r, ids).edges;
    forall e | e in edges && e.downstream == ids[i]
      ensures Finished(jobs, e) && (asAsked ==> Satisfied(jobs, e))
    {
      var k :| 0 <= k < |edges| && edges[k] == e;
      var a := EdgeTold(r, ids, jobs, k, i);
      assert Leads(r, k, a, i);
    }
  }

  lemma ToldEdgesInto(r: Requests.Request, ids: seq<nat>, jobs: Jobs, i: nat, asAsked: bool)
    requires Requests.Admissible(r) && |ids| == |r.nodes| && i < |ids|
    requires forall i, j :: 0 <= i < j < |ids| ==> ids[i] != ids[j]
    requires EdgesInto(GraphFor(r, ids).edges, jobs, ids[i], asAsked)
    ensures if asAsked then AllAsAsked(r, ids, jobs, i) else AllEnded(r, ids, jobs, i)
  {
    var edges := GraphFor(r, ids).edges;
    forall k: nat, a: nat | Leads(r, k, a, i)
      ensures ids[a] in jobs && Terminal(jobs[ids[a]].life)
      ensures asAsked ==> TextHolds(r.edges[k], OutcomeOf(jobs[ids[a]].life))
    {
      var b := EdgeTold(r, ids, jobs, k, i);
      assert edges[k] in edges;
    }
  }

  lemma FatesTold(r: Requests.Request, ids: seq<nat>, jobs: Jobs, i: nat)
    requires Requests.Admissible(r) && |ids| == |r.nodes| && i < |ids|
    requires forall i, j :: 0 <= i < j < |ids| ==> ids[i] != ids[j]
    ensures AllEnded(r, ids, jobs, i) <==> EdgesInto(GraphFor(r, ids).edges, jobs, ids[i], false)
    ensures AllAsAsked(r, ids, jobs, i) <==> EdgesInto(GraphFor(r, ids).edges, jobs, ids[i], true)
  {
    if AllEnded(r, ids, jobs, i) { EdgesIntoTold(r, ids, jobs, i, false); }
    if AllAsAsked(r, ids, jobs, i) { EdgesIntoTold(r, ids, jobs, i, true); }
    if EdgesInto(GraphFor(r, ids).edges, jobs, ids[i], false) { ToldEdgesInto(r, ids, jobs, i, false); }
    if EdgesInto(GraphFor(r, ids).edges, jobs, ids[i], true) { ToldEdgesInto(r, ids, jobs, i, true); }
  }

  lemma FateIn(v: World, g: nat, graph: Graph, j: nat)
    requires Inv(v) && AllJustified(v) && g in v.graphs && SameGraph(graph, v.graphs[g]) && j in graph.nodes
    ensures j in v.jobs
    ensures Dispatched(v.jobs[j].life) ==> EdgesInto(graph.edges, v.jobs, j, true)
    ensures Marked(v.jobs[j]) ==>
      EdgesInto(graph.edges, v.jobs, j, false) && !EdgesInto(graph.edges, v.jobs, j, true)
    ensures v.jobs[j].life.Waiting? && EdgesInto(graph.edges, v.jobs, j, false) ==>
      EdgesInto(graph.edges, v.jobs, j, true)
  {
    assert GraphLinked(v, g) && GraphSafe(v.jobs, v.graphs[g]) && Settled(v.jobs, v.graphs[g]);
    assert Justified(v, j) && !Stuck(v.jobs, v.graphs[g], j);
  }

  /** At every point of every run after its submission, node i of the graph was dispatched only with every
      dependency ended as the text asks; was given up only with every dependency ended and one of them
      otherwise; and is not left waiting once every dependency has ended, unless all did as asked. */
  lemma FateAsRequested(namespaces: map<nat, NamespacePolicy>, steps: seq<Step>, g: nat, r: Requests.Request,
      ids: seq<nat>, specs: seq<Spec>, more: seq<Step>, i: nat)
    requires Stores(Run(Empty(namespaces), steps), g, r, ids, specs) && |ids| == |r.nodes| && i < |ids|
    ensures var v := Run(Empty(namespaces), steps + [SubmitGraphStep(g, r, ids, specs)] + more);
      && ids[i] in v.jobs
      && (Dispatched(v.jobs[ids[i]].life) ==> AllAsAsked(r, ids, v.jobs, i))
      && (Marked(v.jobs[ids[i]]) ==> AllEnded(r, ids, v.jobs, i) && !AllAsAsked(r, ids, v.jobs, i))
      && (v.jobs[ids[i]].life.Waiting? && AllEnded(r, ids, v.jobs, i) ==> AllAsAsked(r, ids, v.jobs, i))
  {
    var run := steps + [SubmitGraphStep(g, r, ids, specs)] + more;
    var v := Run(Empty(namespaces), run);
    GraphKeepsRequest(namespaces, steps, g, r, ids, specs, more);
    Reachable(namespaces, run);
    GivenUpIsJustified(namespaces, run);
    FatesTold(r, ids, v.jobs, i);
    FateIn(v, g, GraphFor(r, ids), ids[i]);
  }
}
