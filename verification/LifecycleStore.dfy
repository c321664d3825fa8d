/** The store's lifecycle transactions, run statement by statement against the rows, each proved to be the
    step of the state machine that it implements. */
module LifecycleStore {
  import opened Base
  import opened Domain
  import opened EdgePredicates
  import opened Propagation
  import opened ControlPlane
  import opened Digraphs
  import opened Invariants
  import opened Preservation
  import opened Dispatching
  import opened Fairness
  import opened Tables
  import Logs = LogAssembly
  import Requests = GraphRequests
  import Model = ControlPlane

  function JobsOf(rows: map<nat, Rows>): Jobs {
    map j | j in rows :: JobOf(rows[j])
  }

  ghost predicate AllCoupled(rows: map<nat, Rows>) {
    forall j {:trigger Coupled(rows[j])} :: j in rows ==> Coupled(rows[j])
  }

  lemma UpdateRow(rows: map<nat, Rows>, j: nat, r: Rows)
    requires AllCoupled(rows) && Coupled(r)
    ensures JobsOf(rows[j := r]) == JobsOf(rows)[j := JobOf(r)] && AllCoupled(rows[j := r])
  {
  }

  // ----- the completion loop's candidate query

  function Columns(row: JobRow): Upstream {
    Upstream(row.phase == JobTerminal, row.outcome)
  }

  /** Accepted, with an incoming edge, no unfinished upstream, and an edge its upstream refutes. */
  predicate Candidate(rows: map<nat, Rows>, edges: seq<Edge>, j: nat) {
    && j in rows && rows[j].job.phase == JobAccepted
    && (exists e :: e in edges && e.downstream == j)
    && (forall e :: e in edges && e.downstream == j && e.upstream in rows ==>
         !CompletionWaits(e, Columns(rows[e.upstream].job)))
    && (exists e ::
         e in edges && e.downstream == j && e.upstream in rows && CompletionRefutes(e, Columns(rows[e.upstream].job)))
  }

  /** The query's ORDER BY graph_index LIMIT 1. */
  function FirstCandidate(rows: map<nat, Rows>, g: Graph, from: nat): Option<nat>
    requires from <= |g.nodes|
    decreases |g.nodes| - from
  {
    if from == |g.nodes| then None
    else if Candidate(rows, g.edges, g.nodes[from]) then Some(g.nodes[from])
    else FirstCandidate(rows, g, from + 1)
  }

  /** Edges refer to stored jobs. */
  ghost predicate ForeignKeys(jobs: set<nat>, g: Graph) {
    forall e :: e in g.edges ==> e.upstream in jobs
  }

  lemma ColumnsTell(r: Rows)
    requires Coupled(r)
    ensures Columns(r.job) == UpstreamOf(LifeOf(r)) && (r.job.phase == JobAccepted <==> LifeOf(r).Waiting?)
  {
  }

  lemma OutcomeColumn(r: Rows)
    requires Coupled(r)
    ensures r.job.outcome == OutcomeOf(LifeOf(r)) && (r.job.phase == JobTerminal <==> r.job.outcome.Some?)
  {
  }

  lemma RefutesExactly(rows: map<nat, Rows>, e: Edge)
    requires AllCoupled(rows) && e.upstream in rows
    ensures CompletionWaits(e, Columns(rows[e.upstream].job)) <==> !Finished(JobsOf(rows), e)
    ensures Finished(JobsOf(rows), e) ==>
      (CompletionRefutes(e, Columns(rows[e.upstream].job)) <==> !Satisfied(JobsOf(rows), e))
  {
    ColumnsTell(rows[e.upstream]);
    LifecyclesAgree(e, LifeOf(rows[e.upstream]));
  }

  /** The query on nullable columns finds exactly the stuck nodes. */
  lemma CandidateIsStuck(rows: map<nat, Rows>, g: Graph, j: nat)
    requires AllCoupled(rows) && ForeignKeys(rows.Keys, g)
    ensures Candidate(rows, g.edges, j) <==> Stuck(JobsOf(rows), g, j)
  {
    if j in rows { ColumnsTell(rows[j]); }
    forall e | e in g.edges
      ensures CompletionWaits(e, Columns(rows[e.upstream].job)) <==> !Finished(JobsOf(rows), e)
      ensures Finished(JobsOf(rows), e) ==>
        (CompletionRefutes(e, Columns(rows[e.upstream].job)) <==> !Satisfied(JobsOf(rows), e))
    {
      RefutesExactly(rows, e);
    }
  }

  lemma {:induction false} FirstCandidateIsFirstStuck(rows: map<nat, Rows>, g: Graph, from: nat)
    requires AllCoupled(rows) && ForeignKeys(rows.Keys, g) && from <= |g.nodes|
    ensures FirstCandidate(rows, g, from) == FirstStuck(JobsOf(rows), g, from)
    decreases |g.nodes| - from
  {
    if from < |g.nodes| {
      CandidateIsStuck(rows, g, g.nodes[from]);
      FirstCandidateIsFirstStuck(rows, g, from + 1);
    }
  }

  /** The statement that ends an unsatisfied node. */
  method DisposeRows(rows: Rows, policy: Policy) returns (after: Rows)
    requires Coupled(rows) && rows.job.phase == JobAccepted
    ensures Coupled(after) && JobOf(after) == Disposed(policy, JobOf(rows))
  {
    var disposition, outcome, desire := Blocked, Aborted, ToRun;
    if policy == SkipUnsatisfied { disposition := Skipped; }
    if policy == CancelUnsatisfied { disposition, outcome, desire := CancelledByPolicy, Cancelled, ToCancel; }
    return rows.(job :=
      rows.job.(phase := JobTerminal, desire := desire, outcome := Some(outcome), disposition := Some(disposition),
                                  revision := rows.job.revision + 1));
  }

  lemma OfferIs(w: World, env: Surroundings, j: nat, run: nat, execution: nat, delivery: nat, digest: nat, now: nat)
    requires Claimed(w, env, j) && UnusedIds(w, execution, delivery)
    ensures j in w.jobs && w.jobs[j].life.Waiting? && w.jobs[j].desire == ToRun
    ensures w.jobs[j].spec.namespace in w.namespaces && AgentFor(w, env, j).Some?
    ensures var job := w.jobs[j]; var policy := w.namespaces[job.spec.namespace];
      Offer(w, env, j, run, execution, delivery, digest, now) ==
        w.(jobs :=
          w.jobs[j :=
            job.(revision := job.revision + 1,
              life := Offered(Dispatch(run, execution, delivery, AgentFor(w, env, j).value, digest, now), 1))],
           namespaces := w.namespaces[job.spec.namespace := policy.(lastDispatched := Some(now))])
  {
  }

  // ----- the claim query

  predicate ActiveRow(row: JobRow) {
    row.phase != JobAccepted && row.phase != JobTerminal
  }

  function ActiveRowsOf(rows: map<nat, Rows>, group: Group): set<nat> {
    set j | j in rows && rows[j].job.spec.group == group && ActiveRow(rows[j].job)
  }

  function ActiveRowsIn(rows: map<nat, Rows>, namespace: nat): set<nat> {
    set j | j in rows && rows[j].job.spec.namespace == namespace && ActiveRow(rows[j].job)
  }

  /** No edge into j is one that holds it back. */
  predicate Unblocked(rows: map<nat, Rows>, edges: seq<Edge>, j: nat) {
    !exists e ::
      e in edges && e.downstream == j && e.upstream in rows && CoordinatorBlocks(e, Columns(rows[e.upstream].job))
  }

  /** The coordinator's condition on nullable columns is that every edge into the node is satisfied. */
  lemma UnblockedIsReady(rows: map<nat, Rows>, g: Graph, j: nat)
    requires AllCoupled(rows) && ForeignKeys(rows.Keys, g)
    ensures Unblocked(rows, g.edges, j) <==> Ready(JobsOf(rows), g, j)
  {
    forall e | e in g.edges
      ensures CoordinatorBlocks(e, Columns(rows[e.upstream].job)) <==> !Satisfied(JobsOf(rows), e)
    {
      ColumnsTell(rows[e.upstream]);
      LifecyclesAgree(e, LifeOf(rows[e.upstream]));
    }
  }

  lemma ActiveTells(r: Rows)
    requires Coupled(r)
    ensures ActiveRow(r.job) <==> Active(LifeOf(r))
  {
  }

  lemma NamespaceCount(rows: map<nat, Rows>, namespace: nat)
    requires AllCoupled(rows)
    ensures ActiveRowsIn(rows, namespace) == ActiveInNamespace(JobsOf(rows), namespace)
  {
    forall j | j in rows ensures ActiveRow(rows[j].job) <==> Active(JobsOf(rows)[j].life) { ActiveTells(rows[j]); }
  }

  /** The jobs that name a group are its members. */
  lemma GroupCount(rows: map<nat, Rows>, group: Group, members: seq<nat>)
    requires AllCoupled(rows) && forall j :: j in members <==> j in rows && rows[j].job.spec.group == group
    ensures ActiveRowsOf(rows, group) == ActiveAmong(JobsOf(rows), members)
  {
    forall j | j in rows ensures ActiveRow(rows[j].job) <==> Active(JobsOf(rows)[j].life) { ActiveTells(rows[j]); }
  }

  lemma GraphMembers(w: World, g: nat, j: nat)
    requires Linked(w) && g in w.graphs
    ensures j in w.graphs[g].nodes <==> j in w.jobs && w.jobs[j].spec.group == InGraph(g)
  {
    assert GraphLinked(w, g);
    if j in w.jobs { assert GroupOk(w, j); }
  }

  lemma CollectionMembers(w: World, c: nat, j: nat)
    requires Linked(w) && c in w.collections
    ensures j in w.collections[c].items <==> j in w.jobs && w.jobs[j].spec.group == InCollection(c)
  {
    assert CollectionLinked(w, c);
    if j in w.jobs { assert GroupOk(w, j); }
  }

  /** The tables that the claim query joins. */
  datatype Joined = Joined(rows: map<nat, Rows>, graphs: map<nat, Graph>, collections: map<nat, Collection>,
      namespaces: map<nat, NamespacePolicy>)

  predicate GroupOpen(t: Joined, j: nat)
    requires j in t.rows
  {
    match t.rows[j].job.spec.group
    case Alone => true
    case InCollection(c) =>
      c in t.collections
        && (t.collections[c].slurmArray || |ActiveRowsOf(t.rows, InCollection(c))| < t.collections[c].maxActive)
    case InGraph(g) =>
      && g in t.graphs && |ActiveRowsOf(t.rows, InGraph(g))| < t.graphs[g].maxActive
           && Unblocked(t.rows, t.graphs[g].edges, j)
  }

  ghost predicate Views(t: Joined, w: World) {
    AllCoupled(t.rows) && w.jobs == JobsOf(t.rows) && w.graphs == t.graphs && w.collections == t.collections
      && w.namespaces == t.namespaces
  }

  lemma GroupOpenExactly(t: Joined, w: World, j: nat)
    requires Views(t, w) && Linked(w) && j in t.rows
    ensures GroupOpen(t, j) <==> GroupAllows(w, j)
  {
    match t.rows[j].job.spec.group
    case Alone =>
    case InCollection(c) =>
      if c in w.collections {
        forall i
          ensures i in w.collections[c].items <==> i in t.rows && t.rows[i].job.spec.group == InCollection(c)
        {
          CollectionMembers(w, c, i);
        }
        GroupCount(t.rows, InCollection(c), w.collections[c].items);
      }
    case InGraph(g) =>
      if g in w.graphs {
        forall i
          ensures i in w.graphs[g].nodes <==> i in t.rows && t.rows[i].job.spec.group == InGraph(g)
        {
          GraphMembers(w, g, i);
        }
        GroupCount(t.rows, InGraph(g), w.graphs[g].nodes);
        assert GraphLinked(w, g);
        UnblockedIsReady(t.rows, t.graphs[g], j);
      }
  }

  /** The query's WHERE clause. */
  predicate Passes(t: Joined, hold: bool, hasAgent: bool, j: nat) {
    && !hold && j in t.rows && t.rows[j].job.phase == JobAccepted && t.rows[j].job.desire == ToRun
    && t.rows[j].job.spec.namespace in t.namespaces
    && |ActiveRowsIn(t.rows, t.rows[j].job.spec.namespace)| < t.namespaces[t.rows[j].job.spec.namespace].maxActive
    && GroupOpen(t, j) && hasAgent
  }

  /** It selects exactly the eligible jobs. */
  lemma PassesExactly(t: Joined, w: World, env: Surroundings, j: nat)
    requires Views(t, w) && Linked(w) && j in t.rows
    ensures Passes(t, env.hold, AgentFor(w, env, j).Some?, j) <==> Eligible(w, env, j)
  {
    ColumnsTell(t.rows[j]);
    NamespaceCount(t.rows, t.rows[j].job.spec.namespace);
    GroupOpenExactly(t, w, j);
  }

  // ----- listing the members a cancellation visits

  /** The members that had not ended, in index order. */
  ghost function Unended(jobs: Jobs, ids: seq<nat>): seq<nat> {
    if ids == [] then [] else
      var rest, last := Unended(jobs, ids[..|ids| - 1]), ids[|ids| - 1];
      if last in jobs && !Terminal(jobs[last].life) then rest + [last] else rest
  }

  /** Visiting only those is the same as visiting every member. */
  lemma {:induction false} EndedNeedNoVisit(w: World, ids: seq<nat>)
    ensures CancelAll(w, Unended(w.jobs, ids)) == CancelAll(w, ids)
  {
    if ids != [] {
      var rest, last := ids[..|ids| - 1], ids[|ids| - 1];
      EndedNeedNoVisit(w, rest);
      var listed := Unended(w.jobs, rest);
      CancelAllSettling(w, rest);
      if last in w.jobs && !Terminal(w.jobs[last].life) {
        assert (listed + [last])[..|listed|] == listed;
      } else if last in w.jobs {
        assert Later(w.jobs[last], CancelAll(w, rest).jobs[last]);
      }
    }
  }

  lemma {:induction false} UnendedFacts(jobs: Jobs, ids: seq<nat>)
    requires Distinct(ids)
    ensures Distinct(Unended(jobs, ids))
    ensures forall j :: j in Unended(jobs, ids) ==> j in ids && j in jobs && !Terminal(jobs[j].life)
  {
    if ids != [] { UnendedFacts(jobs, ids[..|ids| - 1]); }
  }

  /** A listed member is still as listed when its turn comes. */
  lemma StillUnended(w: World, ids: seq<nat>, i: nat)
    requires Distinct(ids) && i < |Unended(w.jobs, ids)|
    ensures var listed := Unended(w.jobs, ids); var now := CancelAll(w, listed[..i]).jobs;
      listed[i] in now && !Terminal(now[listed[i]].life)
  {
    UnendedFacts(w.jobs, ids);
    CancelAllElsewhere(w, Unended(w.jobs, ids)[..i]);
  }

  // ----- the store

  /** validEventTransition, on the execution's phase column. */
  predicate PhaseAdmits(phase: ExecutionPhase, kind: EventKind) {
    match kind
    case ProcessStarted => phase == ExecutionAccepted
    case ProcessCompleted => phase == ExecutionAccepted || phase == ExecutionRunning
    case SchedulerCompleted => phase == ExecutionAccepted || phase == ExecutionRunning
    case SchedulerUncertain => phase == ExecutionAccepted
    case SchedulerSubmitted => phase == ExecutionAccepted
    case SchedulerObserved => phase == ExecutionAccepted || phase == ExecutionRunning
    case UnknownKind => false
  }

  lemma PhaseAdmitsExactly(r: Rows, kind: EventKind)
    requires Coupled(r) && r.execution.Some?
    ensures PhaseAdmits(r.execution.value.phase, kind) <==> LifeOf(r).Live? && ValidTransition(LifeOf(r).running, kind)
    ensures EventsOf(LifeOf(r)) == r.events && r.execution.value.lastSequence == |r.events|
    ensures Dispatched(LifeOf(r)) && LifeOf(r).dispatch.agent == r.execution.value.agent
    ensures LifeOf(r).dispatch.execution == r.execution.value.id
  {
  }

  /** Graph edges refer to stored jobs, and a group lists a member once. */
  ghost predicate GroupsOk(jobs: set<nat>, graphs: map<nat, Graph>, collections: map<nat, Collection>) {
    && (forall g :: g in graphs ==> ForeignKeys(jobs, graphs[g]) && Distinct(graphs[g].nodes))
    && (forall c :: c in collections ==> Distinct(collections[c].items))
  }

  lemma RaiseCollection(jobs: set<nat>, graphs: map<nat, Graph>, collections: map<nat, Collection>, c: nat,
      revision: nat)
    requires GroupsOk(jobs, graphs, collections) && c in collections
    ensures GroupsOk(jobs, graphs, collections[c := collections[c].(revision := revision)])
  {
  }

  lemma RaiseGraph(jobs: set<nat>, graphs: map<nat, Graph>, collections: map<nat, Collection>, g: nat, revision: nat)
    requires GroupsOk(jobs, graphs, collections) && g in graphs
    ensures GroupsOk(jobs, graphs[g := graphs[g].(revision := revision)], collections)
  {
  }

  lemma MoreJobs(jobs: set<nat>, more: set<nat>, graphs: map<nat, Graph>, collections: map<nat, Collection>)
    requires GroupsOk(jobs, graphs, collections) && jobs <= more
    ensures GroupsOk(more, graphs, collections)
  {
  }

  lemma NewCollection(jobs: set<nat>, graphs: map<nat, Graph>, collections: map<nat, Collection>, c: nat,
      collection: Collection)
    requires GroupsOk(jobs, graphs, collections) && Distinct(collection.items)
    ensures GroupsOk(jobs, graphs, collections[c := collection])
  {
  }

  lemma NewGraph(jobs: set<nat>, graphs: map<nat, Graph>, collections: map<nat, Collection>, g: nat,
      r: Requests.Request, ids: seq<nat>)
    requires GroupsOk(jobs, graphs, collections) && Requests.Admissible(r) && |ids| == |r.nodes| && Distinct(ids)
    requires forall i :: 0 <= i < |ids| ==> ids[i] in jobs
    ensures GroupsOk(jobs, graphs[g := GraphFor(r, ids)], collections)
  {
    var graph := GraphFor(r, ids);
    forall e | e in graph.edges ensures e.upstream in jobs {
      var k :| 0 <= k < |graph.edges| && graph.edges[k] == e;
      assert Requests.ValidEdge(r.edges[k], Requests.Names(r.nodes));
      assert e == EdgeFor(r, ids, r.edges[k]);
    }
  }

  // ----- storing a graph's edges

  lemma JobNamedIs(nodes: seq<Requests.Node>, ids: seq<nat>, i: nat)
    requires Requests.ValidNodes(nodes) && |ids| == |nodes| && i < |nodes|
    ensures JobNamed(nodes, ids, nodes[i].name) == ids[i]
  {
  }

  /** The job of each node name. */
  method NodeIds(nodes: seq<Requests.Node>, ids: seq<nat>) returns (byName: map<string, nat>)
    requires Requests.ValidNodes(nodes) && |ids| == |nodes|
    ensures byName.Keys == Requests.Names(nodes)
    ensures forall i :: 0 <= i < |nodes| ==> byName[nodes[i].name] == ids[i]
  {
    byName := map[];
    for k := 0 to |nodes|
      invariant forall i :: 0 <= i < k ==> nodes[i].name in byName && byName[nodes[i].name] == ids[i]
      invariant forall s :: s in byName ==> exists i :: 0 <= i < k && nodes[i].name == s
    {
      byName := byName[nodes[k].name := ids[k]];
    }
  }

  function Outcomes(texts: seq<string>): seq<Outcome> {
    seq(|texts|, i requires 0 <= i < |texts| => OutcomeNamed(texts[i]))
  }

  method InsertedEdges(r: Requests.Request, ids: seq<nat>) returns (edges: seq<Edge>)
    requires Requests.Admissible(r) && |ids| == |r.nodes|
    ensures edges == EdgesFor(r, ids)
  {
    var byName := NodeIds(r.nodes, ids);
    edges := [];
    for k := 0 to |r.edges|
      invariant |edges| == k && forall i :: 0 <= i < k ==> edges[i] == EdgeFor(r, ids, r.edges[i])
    {
      var e := r.edges[k];
      assert Requests.ValidEdge(e, Requests.Names(r.nodes));
      EndsAreNamed(r, ids, e, byName);
      edges := edges + [Edge(byName[e.from], byName[e.to], ConditionOf(e.condition), Outcomes(e.outcomes))];
    }
  }

  method InsertedGraph(r: Requests.Request, ids: seq<nat>) returns (graph: Graph)
    requires Requests.Admissible(r) && |ids| == |r.nodes|
    ensures graph == GraphFor(r, ids)
  {
    var edges := InsertedEdges(r, ids);
    return Graph(ids, edges, PolicyOf(r.policy), r.maxActive, 1);
  }

  lemma EndsAreNamed(r: Requests.Request, ids: seq<nat>, e: Requests.Edge, byName: map<string, nat>)
    requires Requests.ValidNodes(r.nodes) && |ids| == |r.nodes| && Requests.ValidEdge(e, Requests.Names(r.nodes))
    requires byName.Keys == Requests.Names(r.nodes)
    requires forall i :: 0 <= i < |r.nodes| ==> byName[r.nodes[i].name] == ids[i]
    ensures EdgeFor(r, ids, e) == Edge(byName[e.from], byName[e.to], ConditionOf(e.condition), Outcomes(e.outcomes))
  {
    var i :| 0 <= i < |r.nodes| && r.nodes[i].name == e.from;
    var j :| 0 <= j < |r.nodes| && r.nodes[j].name == e.to;
    JobNamedIs(r.nodes, ids, i);
    JobNamedIs(r.nodes, ids, j);
  }

  /** The rows after inserting the first k jobs. */
  ghost predicate Inserted(rows: map<nat, Rows>, after: map<nat, Rows>, ids: seq<nat>, specs: seq<Spec>, k: nat)
    requires |ids| == |specs| && k <= |ids|
  {
    && AllCoupled(after) && after.Keys == rows.Keys + (set i | 0 <= i < k :: ids[i])
    && JobsOf(after) == AddJobs(JobsOf(rows), ids[..k], specs[..k])
  }

  /** All of them. */
  ghost predicate Grown(rows: map<nat, Rows>, after: map<nat, Rows>, ids: seq<nat>, specs: seq<Spec>) {
    && |ids| == |specs| && AllCoupled(after) && after.Keys == rows.Keys + (set i | 0 <= i < |ids| :: ids[i])
    && JobsOf(after) == AddJobs(JobsOf(rows), ids, specs)
  }

  lemma InsertNext(rows: map<nat, Rows>, after: map<nat, Rows>, ids: seq<nat>, specs: seq<Spec>, k: nat)
    requires |ids| == |specs| && k < |ids| && Inserted(rows, after, ids, specs, k)
    ensures Inserted(rows, after[ids[k] := RowsOf(Fresh(specs[k]))], ids, specs, k + 1)
  {
    assert ids[..k + 1][..k] == ids[..k] && specs[..k + 1][..k] == specs[..k];
    RowsRoundTrip(Fresh(specs[k]));
    UpdateRow(after, ids[k], RowsOf(Fresh(specs[k])));
  }

  lemma InsertableNext(jobs: set<nat>, namespaces: set<nat>, ids: seq<nat>, specs: seq<Spec>, group: Group, k: nat)
    requires |ids| == |specs| && k < |ids| && Insertable(jobs, namespaces, ids[..k], specs[..k], group)
    ensures Insertable(jobs, namespaces, ids[..k + 1], specs[..k + 1], group) <==>
      ids[k] !in jobs && ids[k] !in ids[..k] && specs[k].group == group && specs[k].namespace in namespaces
    ensures Insertable(jobs, namespaces, ids, specs, group) ==>
      Insertable(jobs, namespaces, ids[..k + 1], specs[..k + 1], group)
  {
    assert ids[..k + 1] == ids[..k] + [ids[k]] && specs[..k + 1] == specs[..k] + [specs[k]];
  }

  /** Inserts job rows one by one; a taken id, a wrong group or an unknown namespace fails the transaction. */
  method InsertJobs(rows: map<nat, Rows>, namespaces: set<nat>, ids: seq<nat>, specs: seq<Spec>, group: Group)
    returns (ok: bool, after: map<nat, Rows>)
    requires AllCoupled(rows) && |ids| == |specs|
    ensures ok <==> Insertable(rows.Keys, namespaces, ids, specs, group)
    ensures ok ==> Grown(rows, after, ids, specs)
  {
    after := rows;
    for k := 0 to |ids|
      invariant Inserted(rows, after, ids, specs, k) && Insertable(rows.Keys, namespaces, ids[..k], specs[..k], group)
    {
      InsertableNext(rows.Keys, namespaces, ids, specs, group, k);
      if ids[k] in after || specs[k].group != group || specs[k].namespace !in namespaces { return false, rows; }
      InsertNext(rows, after, ids, specs, k);
      after := after[ids[k] := RowsOf(Fresh(specs[k]))];
    }
    assert ids[..|ids|] == ids && specs[..|specs|] == specs;
    return true, after;
  }

  ghost predicate Insertable(jobs: set<nat>, namespaces: set<nat>, ids: seq<nat>, specs: seq<Spec>, group: Group) {
    && |ids| == |specs| && Distinct(ids)
    && (forall i :: 0 <= i < |ids| ==> ids[i] !in jobs && specs[i].group == group && specs[i].namespace in namespaces)
  }

  class Store {
    var rows: map<nat, Rows>
    var graphs: map<nat, Graph>
    var collections: map<nat, Collection>
    var actions: map<nat, ActionState>
    var namespaces: map<nat, NamespacePolicy>
    var logs: map<(nat, string), Logs.Table>

    constructor (namespaces: map<nat, NamespacePolicy>)
      ensures Valid() && View() == Model.Empty(namespaces)
    {
      rows, graphs, collections, actions, logs := map[], map[], map[], map[], map[];
      this.namespaces := namespaces;
    }

    /** Every job's rows are coupled and groups are well formed. */
    ghost predicate Valid()
      reads this
    {
      AllCoupled(rows) && GroupsOk(rows.Keys, graphs, collections)
    }

    function View(): World
      reads this
    {
      World(JobsOf(rows), graphs, collections, actions, namespaces, logs)
    }

    method AcceptAssignment(j: nat, who: Identity, a: AcceptanceRequest, now: nat)
      returns (reply: Result<Authorization>)
      requires Valid()
      modifies this`rows
      ensures Valid() && (View(), reply) == Model.Accept(old(View()), j, who, a, now)
    {
      if j !in rows { return Err(NotFound); }
      var r;
      r, reply := AcceptRows(rows[j], who, a, now);
      UpdateRow(rows, j, r);
      rows := rows[j := r];
    }

    /** One cancelled member: its rows, and the action an agent has to be sent. */
    method CancelSibling(j: nat)
      requires Valid() && j in rows && rows[j].job.phase != JobTerminal
      modifies this`rows, this`actions
      ensures Valid() && View() == Model.CancelRow(old(View()), j) && rows.Keys == old(rows.Keys)
    {
      CoupledPhases(rows[j]);
      var r, act := CancelRows(rows[j]);
      UpdateRow(rows, j, r);
      rows := rows[j := r];
      if act.Some? && act.value !in actions { actions := actions[act.value := Pending]; }
    }

    /** The listing that both group cancellations start from; `except` is a job that has just ended. */
    method ListUnended(ids: seq<nat>, except: Option<nat>) returns (listed: seq<nat>)
      requires Valid() && (except.Some? ==> except.value in rows && rows[except.value].job.phase == JobTerminal)
      ensures listed == Unended(View().jobs, ids)
    {
      listed := [];
      for i := 0 to |ids|
        invariant listed == Unended(View().jobs, ids[..i])
      {
        assert ids[..i + 1][..i] == ids[..i];
        if ids[i] in rows { CoupledPhases(rows[ids[i]]); }
        if ids[i] in rows && Some(ids[i]) != except
          && rows[ids[i]].job.phase != JobTerminal { listed := listed + [ids[i]]; }
      }
      assert ids[..|ids|] == ids;
    }

    method CancelEach(ids: seq<nat>, except: Option<nat>)
      requires Valid() && Distinct(ids)
      requires (except.Some? ==> except.value in rows && rows[except.value].job.phase == JobTerminal)
      modifies this`rows, this`actions
      ensures Valid() && View() == Model.CancelAll(old(View()), ids) && rows.Keys == old(rows.Keys)
    {
      var siblings := ListUnended(ids, except);
      EndedNeedNoVisit(View(), ids);
      for i := 0 to |siblings|
        invariant Valid() && View() == Model.CancelAll(old(View()), siblings[..i]) && rows.Keys == old(rows.Keys)
      {
        assert siblings[..i + 1][..i] == siblings[..i];
        StillUnended(old(View()), ids, i);
        CoupledPhases(rows[siblings[i]]);
        CancelSibling(siblings[i]);
      }
      assert siblings[..|siblings|] == siblings;
    }

    method ApplyCollectionCompletion(j: nat, outcome: Outcome)
      requires Valid() && j in rows && rows[j].job.phase == JobTerminal && rows[j].job.outcome == Some(outcome)
      modifies this`rows, this`actions, this`collections
      ensures Valid() && View() == Model.CompleteCollection(old(View()), j) && rows.Keys == old(rows.Keys)
    {
      OutcomeColumn(rows[j]);
      if !rows[j].job.spec.group.InCollection? || rows[j].job.spec.group.collection !in collections { return; }
      var c := rows[j].job.spec.group.collection;
      var collection := collections[c];
      if collection.failFast && outcome != Success { CancelEach(collection.items, Some(j)); }
      RaiseCollection(rows.Keys, graphs, collections, c, collection.revision + 1);
      collections := collections[c := collection.(revision := collection.revision + 1)];
    }

    /** One round of the completion loop: ends the first unsatisfied node, if there is one. */
    method ResolveNext(g: Graph) returns (found: bool)
      requires Valid() && ForeignKeys(rows.Keys, g)
      modifies this`rows
      ensures Valid() && rows.Keys == old(rows.Keys)
      ensures found <==> FirstStuck(old(JobsOf(rows)), g, 0).Some?
      ensures if found
        then JobsOf(rows) == Resolve(old(JobsOf(rows)), g, FirstStuck(old(JobsOf(rows)), g, 0).value)
          else rows == old(rows)
    {
      FirstCandidateIsFirstStuck(rows, g, 0);
      var candidate := FirstCandidate(rows, g, 0);
      if candidate.None? { return false; }
      ColumnsTell(rows[candidate.value]);
      var r := DisposeRows(rows[candidate.value], g.policy);
      UpdateRow(rows, candidate.value, r);
      rows := rows[candidate.value := r];
      return true;
    }

    /** The completion loop. */
    method ResolveAll(g: Graph)
      requires Valid() && ForeignKeys(rows.Keys, g)
      modifies this`rows
      ensures Valid() && rows.Keys == old(rows.Keys) && JobsOf(rows) == Propagate(old(JobsOf(rows)), g)
    {
      var more := true;
      while more
        invariant Valid() && rows.Keys == old(rows.Keys)
        invariant Propagate(JobsOf(rows), g) == Propagate(old(JobsOf(rows)), g)
        invariant !more ==> FirstStuck(JobsOf(rows), g, 0).None?
        decreases WaitingNodes(JobsOf(rows), g), more
      {
        ghost var before := JobsOf(rows);
        more := ResolveNext(g);
        if more { ResolveShrinks(before, g, FirstStuck(before, g, 0).value); }
      }
    }

    method ApplyGraphCompletion(j: nat)
      requires Valid() && j in rows
      modifies this`rows, this`graphs
      ensures Valid() && View() == Model.CompleteGraph(old(View()), j)
    {
      if !rows[j].job.spec.group.InGraph? || rows[j].job.spec.group.graph !in graphs { return; }
      var id := rows[j].job.spec.group.graph;
      var g := graphs[id];
      ResolveAll(g);
      RaiseGraph(rows.Keys, graphs, collections, id, g.revision + 1);
      graphs := graphs[id := g.(revision := g.revision + 1)];
    }

    method CancelGraph(id: nat) returns (found: bool)
      requires Valid()
      modifies this`rows, this`actions, this`graphs
      ensures Valid() && View() == Model.CancelGraph(old(View()), id) && (found <==> id in old(graphs))
    {
      if id !in graphs { return false; }
      var g := graphs[id];
      CancelEach(g.nodes, None);
      RaiseGraph(rows.Keys, graphs, collections, id, g.revision + 1);
      graphs := graphs[id := g.(revision := g.revision + 1)];
      return true;
    }

    method CancelJob(j: nat) returns (found: bool)
      requires Valid()
      modifies this`rows, this`actions, this`graphs
      ensures Valid() && View() == Model.CancelJob(old(View()), j) && (found <==> j in old(rows))
    {
      if j !in rows { return false; }
      CoupledPhases(rows[j]);
      if rows[j].job.phase == JobTerminal || rows[j].job.desire == ToCancel { return true; }
      CancelSibling(j);
      CoupledPhases(rows[j]);
      if rows[j].job.phase == JobTerminal { ApplyGraphCompletion(j); }
      return true;
    }

    /** The claim query's row: passes the WHERE clause, and no other passing row comes before it. */
    predicate ClaimedRow(env: Surroundings, j: nat)
      reads this
    {
      && j in rows && Passes(Joins(), env.hold, AgentFor(View(), env, j).Some?, j)
      && forall i :: i in rows && i != j && Passes(Joins(), env.hold, AgentFor(View(), env, i).Some?, i) ==>
           Precedes(View(), j, i)
    }

    function Joins(): Joined
      reads this
    {
      Joined(rows, graphs, collections, namespaces)
    }

    /** The row and agent that the query returns, if any job is eligible. */
    method ClaimAssignmentCandidate(env: Surroundings) returns (claim: Option<(nat, nat)>)
      requires Valid() && Linked(View())
      ensures claim.Some? ==>
        Claimed(View(), env, claim.value.0) && AgentFor(View(), env, claim.value.0) == Some(claim.value.1)
      ensures claim.None? ==> forall j :: !Eligible(View(), env, j)
    {
      forall j | j in rows
        ensures Passes(Joins(), env.hold, AgentFor(View(), env, j).Some?, j) <==> Eligible(View(), env, j)
      {
        PassesExactly(Joins(), View(), env, j);
      }
      ClaimIsTotal(View(), env);
      assert forall j :: j in rows ==> (ClaimedRow(env, j) <==> Claimed(View(), env, j));
      if exists j :: j in rows && ClaimedRow(env, j) {
        var j :| j in rows && ClaimedRow(env, j);
        return Some((j, AgentFor(View(), env, j).value));
      }
      return None;
    }

    predicate IdsTaken(execution: nat, delivery: nat)
      reads this
    {
      exists j :: j in rows &&
        ((rows[j].execution.Some? && rows[j].execution.value.id == execution) ||
         (rows[j].assignment.Some? && rows[j].assignment.value.id == delivery))
    }

    /** Offers the claimed job, unless none is eligible or a generated id is taken. */
    method ReconcileOneAssignment(env: Surroundings, run: nat, execution: nat, delivery: nat, digest: nat, now: nat)
      returns (offered: Option<nat>)
      requires Valid() && Linked(View())
      modifies this`rows, this`namespaces
      ensures Valid()
      ensures offered.Some? ==>
        && Claimed(old(View()), env, offered.value) && UnusedIds(old(View()), execution, delivery)
        && View() == Model.Offer(old(View()), env, offered.value, run, execution, delivery, digest, now)
      ensures offered.None? ==>
        View() == old(View()) && ((forall j :: !Eligible(View(), env, j)) || !UnusedIds(View(), execution, delivery))
    {
      var claim := ClaimAssignmentCandidate(env);
      if claim.None? { return None; }
      TakenExactly(rows, View(), execution, delivery);
      if IdsTaken(execution, delivery) { return None; }
      OfferRow(env, claim.value.0, claim.value.1, run, execution, delivery, digest, now);
      return Some(claim.value.0);
    }

    method OfferRow(ghost env: Surroundings, j: nat, agent: nat, run: nat, execution: nat, delivery: nat, digest: nat,
        now: nat)
      requires Valid() && Claimed(View(), env, j) && AgentFor(View(), env, j) == Some(agent)
      requires UnusedIds(View(), execution, delivery)
      modifies this`rows, this`namespaces
      ensures Valid() && View() == Model.Offer(old(View()), env, j, run, execution, delivery, digest, now)
    {
      OfferIs(View(), env, j, run, execution, delivery, digest, now);
      var ok, r := OfferRows(rows[j], Dispatch(run, execution, delivery, agent, digest, now));
      UpdateRow(rows, j, r);
      var n := rows[j].job.spec.namespace;
      rows := rows[j := r];
      namespaces := namespaces[n := namespaces[n].(lastDispatched := Some(now))];
    }

    // ----- submissions

    method SubmitJob(id: nat, spec: Spec)
      requires Valid()
      modifies this`rows
      ensures Valid() && View() == Model.SubmitJob(old(View()), id, spec)
    {
      InsertableIsNew(rows, View(), [id], [spec], Alone);
      AddOne(JobsOf(rows), id, spec);
      var ok, after := InsertJobs(rows, namespaces.Keys, [id], [spec], Alone);
      if ok {
        MoreJobs(rows.Keys, after.Keys, graphs, collections);
        rows := after;
      }
    }

    method SubmitCollection(c: nat, ids: seq<nat>, specs: seq<Spec>, maxActive: nat, failFast: bool, slurmArray: bool)
      requires Valid() && |ids| == |specs|
      modifies this`rows, this`collections
      ensures Valid() && View() == Model.SubmitCollection(old(View()), c, ids, specs, maxActive, failFast, slurmArray)
    {
      InsertableIsNew(rows, View(), ids, specs, InCollection(c));
      if c in collections || maxActive < 1 || maxActive > |ids| { return; }
      var ok, after := InsertJobs(rows, namespaces.Keys, ids, specs, InCollection(c));
      if ok { StoreCollection(c, Collection(ids, maxActive, failFast, slurmArray, 1), specs, after); }
    }

    method StoreCollection(c: nat, collection: Collection, ghost specs: seq<Spec>, after: map<nat, Rows>)
      requires Valid() && c !in collections && Distinct(collection.items) && Grown(rows, after, collection.items, specs)
      modifies this`rows, this`collections
      ensures Valid() && rows == after && collections == old(collections)[c := collection]
    {
      MoreJobs(rows.Keys, after.Keys, graphs, collections);
      NewCollection(after.Keys, graphs, collections, c, collection);
      rows := after;
      collections := collections[c := collection];
    }

    /** A graph is decoded, then its jobs and edges are stored. */
    method SubmitGraph(g: nat, r: Requests.Request, ids: seq<nat>, specs: seq<Spec>)
      requires Valid() && |ids| == |specs| == |r.nodes|
      modifies this`rows, this`graphs
      ensures Valid() && View() == Model.SubmitGraph(old(View()), g, r, ids, specs)
    {
      InsertableIsNew(rows, View(), ids, specs, InGraph(g));
      var admitted := Requests.ValidateGraphRequest(r);
      if !admitted || g in graphs { return; }
      var ok, after := InsertJobs(rows, namespaces.Keys, ids, specs, InGraph(g));
      if ok { StoreGraph(g, r, ids, specs, after); }
    }

    method StoreGraph(g: nat, r: Requests.Request, ids: seq<nat>, ghost specs: seq<Spec>, after: map<nat, Rows>)
      requires Valid() && g !in graphs && Requests.Admissible(r) && |ids| == |r.nodes| && Distinct(ids)
      requires Grown(rows, after, ids, specs)
      modifies this`rows, this`graphs
      ensures Valid() && rows == after && graphs == old(graphs)[g := GraphFor(r, ids)]
    {
      var graph := InsertedGraph(r, ids);
      MoreJobs(rows.Keys, after.Keys, graphs, collections);
      NewGraph(after.Keys, graphs, collections, g, r, ids);
      rows := after;
      graphs := graphs[g := graph];
    }

    // ----- updates that change no phase

    method MarkStale(j: nat)
      requires Valid()
      modifies this`rows
      ensures Valid() && View() == Model.MarkStale(old(View()), j)
    {
      if j !in rows || rows[j].execution.None? { return; }
      PhaseAdmitsExactly(rows[j], SchedulerObserved);
      if rows[j].execution.value.phase == ExecutionAccepted || rows[j].execution.value.phase == ExecutionRunning {
        var r := StaleRows(rows[j]);
        UpdateRow(rows, j, r);
        rows := rows[j := r];
      }
    }

    method AcknowledgeDesiredAction(j: nat, who: Identity)
      requires Valid()
      modifies this`actions
      ensures Valid() && View() == Model.Acknowledge(old(View()), j, who)
    {
      if j !in rows || rows[j].execution.None? || rows[j].job.spec.namespace != who.namespace { return; }
      PhaseAdmitsExactly(rows[j], SchedulerObserved);
      var x := rows[j].execution.value;
      if x.agent == who.agent && x.id in actions { actions := actions[x.id := Acknowledged]; }
    }

    method CommitLogChunk(j: nat, agent: nat, store: string, version: Logs.Int64, keyPrefix: string, c: Logs.Chunk)
      requires Valid()
      modifies this`logs
      ensures Valid() && View() == Model.CommitLog(old(View()), j, agent, store, version, keyPrefix, c)
    {
      if j !in rows || rows[j].execution.None? { return; }
      PhaseAdmitsExactly(rows[j], SchedulerObserved);
      var x := rows[j].execution.value;
      OfferedTells(rows[j]);
      var table := if (x.id, c.stream) in logs then logs[(x.id, c.stream)] else Logs.EMPTY;
      var (after, reply) :=
        Logs.Commit(table, Some(Logs.Execution(x.agent, x.phase == Planned, store, version, keyPrefix)), agent, c);
      if reply.Ok? { logs := logs[(x.id, c.stream) := after]; }
    }

    /** The checks on an event, in order; no verdict means that it is to be applied. */
    method CheckEvent(j: nat, who: Identity, e: Event) returns (verdict: Option<Result<bool>>)
      requires Valid()
      ensures verdict.Some? ==> Model.Record(View(), j, who, e) == (View(), verdict.value)
      ensures verdict.None? ==> Applicable(j, who, e)
    {
      if j !in rows || rows[j].execution.None?
        || rows[j].job.spec.namespace != who.namespace { return Some(Err(NotFound)); }
      var r := rows[j];
      var x := r.execution.value;
      PhaseAdmitsExactly(r, e.kind);
      if x.agent != who.agent || e.agent != who.agent { return Some(Err(Forbidden)); }
      var existing := EventNamed(r.events, e.id);
      if existing.Some? { return Some(if existing.value.digest != e.digest
        then Err(IdempotencyConflict) else Ok(true)); }
      if e.sequence != x.lastSequence + 1 { return Some(Err(Conflict)); }
      if r.job.spec.slurm != IsScheduler(e.kind) || (IsScheduler(e.kind) && !e.slurm) { return Some(Err(Conflict)); }
      if !PhaseAdmits(x.phase, e.kind) { return Some(Err(Conflict)); }
      if IsCompletion(e.kind) {
        if !e.artifactsMatch { return Some(Err(Conflict)); }
        if r.job.spec.logged && CompleteStreams(View(), x.id) != 2 { return Some(Err(Conflict)); }
      }
      TakenIsStored(rows, View(), e.id);
      if exists i :: i in rows && EventNamed(rows[i].events, e.id).Some? { return Some(Err(Internal)); }
      return None;
    }

    /** The event is next in its execution's stream and may be applied. */
    ghost predicate Applicable(j: nat, who: Identity, e: Event)
      reads this
    {
      && j in rows && LifeOf(rows[j]).Live? && e.sequence == |rows[j].events| + 1
      && ValidTransition(LifeOf(rows[j]).running, e.kind)
      && var next := Observed(View(), j, e);
         Model.Record(View(), j, who, e) ==
           (if IsCompletion(e.kind) then CompleteGraph(CompleteCollection(next, j), j) else next, Ok(false))
    }

    method ApplyEvent(j: nat, e: Event)
      requires Valid() && j in rows && LifeOf(rows[j]).Live? && e.sequence == |rows[j].events| + 1
      requires ValidTransition(LifeOf(rows[j]).running, e.kind)
      modifies this`rows
      ensures Valid() && View() == Observed(old(View()), j, e) && j in rows
      ensures IsCompletion(e.kind) ==> rows[j].job.phase == JobTerminal && rows[j].job.outcome == Some(e.outcome)
    {
      var after := ObserveRows(rows[j], e);
      UpdateRow(rows, j, after);
      rows := rows[j := after];
    }

    method RecordExecutionEvent(j: nat, who: Identity, e: Event) returns (reply: Result<bool>)
      requires Valid()
      modifies this`rows, this`actions, this`collections, this`graphs
      ensures Valid() && (View(), reply) == Model.Record(old(View()), j, who, e)
    {
      var verdict := CheckEvent(j, who, e);
      if verdict.Some? { return verdict.value; }
      ApplyEvent(j, e);
      if IsCompletion(e.kind) {
        ApplyCollectionCompletion(j, e.outcome);
        ApplyGraphCompletion(j);
      }
      return Ok(false);
    }

    // ----- runs of rows

    /** Whatever transaction is run, the rows go where the state machine goes. */
    method Execute(s: Step)
      requires Valid() && Inv(View())
      modifies this
      ensures Valid() && Inv(View()) && View() == Model.Apply(old(View()), s)
    {
      StepKeeps(View(), s);
      if Dispatches(s) { ExecuteGrowth(s); } else { ExecuteUpdate(s); }
    }

    /** Submissions and offers; a submission whose lists do not match in length inserts nothing. */
    method ExecuteGrowth(s: Step)
      requires Valid() && Linked(View()) && Dispatches(s)
      modifies this
      ensures Valid() && View() == Model.Apply(old(View()), s)
    {
      match s
      case SubmitJobStep(id, spec) => SubmitJob(id, spec);
      case SubmitCollectionStep(c, ids, specs, maxActive, failFast, slurmArray) =>
        if |ids| == |specs| { SubmitCollection(c, ids, specs, maxActive, failFast, slurmArray); }
      case SubmitGraphStep(g, r, ids, specs) =>
        if |ids| == |specs| == |r.nodes| { SubmitGraph(g, r, ids, specs); }
      case OfferStep(env, j, run, execution, delivery, digest, now) =>
        OfferIfClaimed(env, j, run, execution, delivery, digest, now);
    }

    method ExecuteUpdate(s: Step)
      requires Valid() && !Dispatches(s)
      modifies this
      ensures Valid() && View() == Model.Apply(old(View()), s)
    {
      match s
      case AcceptStep(j, who, a, now) => var reply := AcceptAssignment(j, who, a, now);
      case RecordStep(j, who, e) => var reply := RecordExecutionEvent(j, who, e);
      case CancelJobStep(j) => var found := CancelJob(j);
      case CancelGraphStep(g) => var found := CancelGraph(g);
      case AcknowledgeStep(j, who) => AcknowledgeDesiredAction(j, who);
      case MarkStaleStep(j) => MarkStale(j);
      case CommitLogStep(j, agent, store, version, prefix, c) => CommitLogChunk(j, agent, store, version, prefix, c);
    }

    /** A step that names another job than the one the claim returns does nothing. */
    method OfferIfClaimed(env: Surroundings, j: nat, run: nat, execution: nat, delivery: nat, digest: nat, now: nat)
      requires Valid() && Linked(View())
      modifies this`rows, this`namespaces
      ensures Valid() && View() == Model.Offer(old(View()), env, j, run, execution, delivery, digest, now)
    {
      ClaimIsTotal(View(), env);
      var claim := ClaimAssignmentCandidate(env);
      TakenExactly(rows, View(), execution, delivery);
      if claim.Some? && claim.value.0 == j && !IdsTaken(execution, delivery) {
        OfferRow(env, j, claim.value.1, run, execution, delivery, digest, now);
      }
    }

    /** Along every run of transactions on the rows, the four phases of every job stay coupled and
        never move backwards. */
    method ExecuteAll(steps: seq<Step>)
      requires Valid() && Inv(View())
      modifies this
      ensures Valid() && Inv(View()) && View() == Model.Run(old(View()), steps)
      ensures forall j :: j in rows ==> PhasesOf(rows[j]) in COMBINATIONS
      ensures forall j :: j in old(rows) ==> j in rows && Forward(PhasesOf(old(rows)[j]), PhasesOf(rows[j]))
    {
      for i := 0 to |steps|
        invariant Valid() && Inv(View()) && View() == Model.Run(old(View()), steps[..i])
      {
        assert steps[..i + 1][..i] == steps[..i];
        Execute(steps[i]);
      }
      assert steps[..|steps|] == steps && [] + steps == steps;
      RunOnward(old(View()), [], steps);
      RowsMoveForward(old(rows), rows);
    }
  }

  lemma TakenIsStored(rows: map<nat, Rows>, w: World, id: nat)
    requires AllCoupled(rows) && w.jobs == JobsOf(rows)
    ensures EventIdTaken(w, id) <==> exists i :: i in rows && EventNamed(rows[i].events, id).Some?
  {
    forall i | i in rows ensures EventsOf(w.jobs[i].life) == rows[i].events { CoupledEvents(rows[i]); }
  }

  lemma CoupledEvents(r: Rows)
    requires Coupled(r)
    ensures EventsOf(LifeOf(r)) == r.events
  {
  }

  lemma RowsMoveForward(before: map<nat, Rows>, after: map<nat, Rows>)
    requires AllCoupled(before) && AllCoupled(after)
    requires forall j :: j in JobsOf(before) ==> j in JobsOf(after) && Later(JobsOf(before)[j], JobsOf(after)[j])
    ensures forall j :: j in after ==> PhasesOf(after[j]) in COMBINATIONS
    ensures forall j :: j in before ==> j in after && Forward(PhasesOf(before[j]), PhasesOf(after[j]))
  {
    forall j | j in after ensures PhasesOf(after[j]) in COMBINATIONS { CoupledPhases(after[j]); }
    forall j | j in before ensures j in after && Forward(PhasesOf(before[j]), PhasesOf(after[j])) {
      assert j in JobsOf(before) && Coupled(before[j]) && Coupled(after[j]);
      LaterIsForward(JobOf(before[j]), JobOf(after[j]));
    }
  }

  lemma OfferedTells(r: Rows)
    requires Coupled(r) && r.execution.Some?
    ensures r.execution.value.phase == Planned <==> LifeOf(r).Offered?
  {
  }

  lemma InsertableIsNew(rows: map<nat, Rows>, w: World, ids: seq<nat>, specs: seq<Spec>, group: Group)
    requires w.jobs == JobsOf(rows)
    ensures Insertable(rows.Keys, w.namespaces.Keys, ids, specs, group) <==> NewJobs(w, ids, specs, group)
  {
  }

  lemma AddOne(jobs: Jobs, id: nat, spec: Spec)
    ensures AddJobs(jobs, [id], [spec]) == jobs[id := Fresh(spec)]
  {
    assert AddJobs(jobs, [id][..0], [spec][..0]) == jobs;
  }

  lemma TakenExactly(rows: map<nat, Rows>, w: World, execution: nat, delivery: nat)
    requires AllCoupled(rows) && w.jobs == JobsOf(rows)
    ensures UnusedIds(w, execution, delivery) <==>
      forall j :: j in rows ==>
        !(rows[j].execution.Some? && rows[j].execution.value.id == execution) &&
        !(rows[j].assignment.Some? && rows[j].assignment.value.id == delivery)
  {
    forall j | j in rows
      ensures Dispatched(JobsOf(rows)[j].life) <==> rows[j].execution.Some?
      ensures Dispatched(JobsOf(rows)[j].life) <==> rows[j].assignment.Some?
      ensures Dispatched(JobsOf(rows)[j].life) ==> JobsOf(rows)[j].life.dispatch.execution == rows[j].execution.value.id
      ensures Dispatched(JobsOf(rows)[j].life) ==> JobsOf(rows)[j].life.dispatch.delivery == rows[j].assignment.value.id
    {
      IdsTell(rows[j]);
    }
  }

  lemma IdsTell(r: Rows)
    requires Coupled(r)
    ensures Dispatched(LifeOf(r)) <==> r.execution.Some?
    ensures Dispatched(LifeOf(r)) <==> r.assignment.Some?
    ensures r.execution.Some? ==>
      LifeOf(r).dispatch.execution == r.execution.value.id && LifeOf(r).dispatch.delivery == r.assignment.value.id
  {
  }
}
