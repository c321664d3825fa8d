/** What the control plane promises about whole runs. */
module Guarantees {
  import opened Base
  import opened Domain
  import opened Propagation
  import opened ControlPlane
  import opened Digraphs
  import opened Invariants
  import opened Preservation
  import opened Dispatching

  // ----- progress: no admitted graph deadlocks

  ghost predicate Unfinished(jobs: Jobs, g: Graph) {
    exists j :: j in g.nodes && j in jobs && !Terminal(jobs[j].life)
  }

  /** Some node is with an agent, or some waiting node is wanted, has every edge satisfied, and the
      graph has room for it. */
  ghost predicate CanProgress(jobs: Jobs, g: Graph) {
    || ActiveAmong(jobs, g.nodes) != {}
    || exists j :: j in g.nodes && j in jobs && jobs[j].life.Waiting? && jobs[j].desire == ToRun && Ready(jobs, g, j)
         && |ActiveAmong(jobs, g.nodes)| < g.maxActive
  }

  ghost function NodeSet(g: Graph): set<nat> {
    set j | j in g.nodes
  }

  lemma LowestWaiting(rank: map<nat, nat>, waiting: set<nat>) returns (j: nat)
    requires waiting != {} && waiting <= rank.Keys
    ensures j in waiting && forall k :: k in waiting ==> rank[j] <= rank[k]
  {
    j :| j in waiting;
    while exists k :: k in waiting && rank[k] < rank[j]
      invariant j in waiting
      decreases rank[j]
    {
      var k :| k in waiting && rank[k] < rank[j];
      j := k;
    }
  }

  /** The lowest waiting node of an idle settled graph has all its edges satisfied. */
  lemma LowestIsReady(jobs: Jobs, g: Graph, rank: map<nat, nat>, j: nat)
    requires Edges(g) && Settled(jobs, g) && (forall k :: k in g.nodes ==> k in jobs)
    requires IsRank(ArrowsIn(g), NodeSet(g), rank) && ActiveAmong(jobs, g.nodes) == {}
    requires j in g.nodes && jobs[j].life.Waiting?
    requires forall k :: k in g.nodes && jobs[k].life.Waiting? ==> rank[j] <= rank[k]
    ensures Ready(jobs, g, j)
  {
    forall e | e in g.edges && e.downstream == j ensures Finished(jobs, e) {
      assert (e.upstream, e.downstream) in ArrowsIn(g) && e.upstream in g.nodes;
      assert !jobs[e.upstream].life.Waiting? && e.upstream !in ActiveAmong(jobs, g.nodes);
    }
    assert !Stuck(jobs, g, j);
  }

  lemma NoDeadlockIn(w: World, g: nat)
    requires Inv(w) && g in w.graphs && Unfinished(w.jobs, w.graphs[g])
    ensures CanProgress(w.jobs, w.graphs[g])
  {
    var graph := w.graphs[g];
    assert GraphLinked(w, g) && Settled(w.jobs, graph);
    if ActiveAmong(w.jobs, graph.nodes) == {} {
      var waiting := WaitingNodes(w.jobs, graph);
      var j :| j in graph.nodes && !Terminal(w.jobs[j].life);
      assert j !in ActiveAmong(w.jobs, graph.nodes) && j in waiting;
      var rank := AcyclicRank<nat>(ArrowsIn(graph), NodeSet(graph));
      var lowest := LowestWaiting(rank, waiting);
      LowestIsReady(w.jobs, graph, rank, lowest);
      assert JobOk(w.jobs[lowest]);
    }
  }

  /** In every reachable state, a graph with an unfinished node can make progress, and no waiting node
      sits behind ended upstreams with an unsatisfied edge. */
  lemma NoDeadlock(namespaces: map<nat, NamespacePolicy>, steps: seq<Step>, g: nat)
    requires g in Run(Empty(namespaces), steps).graphs
    ensures var w := Run(Empty(namespaces), steps);
      Settled(w.jobs, w.graphs[g]) && (Unfinished(w.jobs, w.graphs[g]) ==> CanProgress(w.jobs, w.graphs[g]))
  {
    Reachable(namespaces, steps);
    if Unfinished(Run(Empty(namespaces), steps).jobs, Run(Empty(namespaces), steps).graphs[g]) {
      NoDeadlockIn(Run(Empty(namespaces), steps), g);
    }
  }

  // ----- finality

  /** Once a job ends, nothing that follows changes it in any way. */
  lemma TerminalIsFinal(namespaces: map<nat, NamespacePolicy>, steps: seq<Step>, more: seq<Step>, j: nat)
    requires j in Run(Empty(namespaces), steps).jobs && Terminal(Run(Empty(namespaces), steps).jobs[j].life)
    ensures j in Run(Empty(namespaces), steps + more).jobs
    ensures Run(Empty(namespaces), steps + more).jobs[j] == Run(Empty(namespaces), steps).jobs[j]
    ensures OutcomeOf(Run(Empty(namespaces), steps).jobs[j].life).Some?
  {
    RunOnward(Empty(namespaces), steps, more);
  }

  // ----- dependencies and limits

  /** A node that was ever dispatched has all its edges satisfied, at that point of the run and at every later one. */
  lemma DispatchedStaysSatisfied(namespaces: map<nat, NamespacePolicy>, steps: seq<Step>, more: seq<Step>, g: nat,
      e: Edge)
    requires var w := Run(Empty(namespaces), steps);
      g in w.graphs && e in w.graphs[g].edges && e.downstream in w.jobs && Dispatched(w.jobs[e.downstream].life)
    ensures Satisfied(Run(Empty(namespaces), steps).jobs, e)
    ensures Satisfied(Run(Empty(namespaces), steps + more).jobs, e)
  {
    Reachable(namespaces, steps);
    Reachable(namespaces, steps + more);
    RunOnward(Empty(namespaces), steps, more);
    assert GraphSafe(Run(Empty(namespaces), steps).jobs, Run(Empty(namespaces), steps).graphs[g]);
    assert GraphSafe(Run(Empty(namespaces), steps + more).jobs, Run(Empty(namespaces), steps + more).graphs[g]);
  }

  /** Active nodes never exceed a graph's limit, nor active items an individual collection's. */
  lemma LimitsHold(namespaces: map<nat, NamespacePolicy>, steps: seq<Step>)
    ensures var w := Run(Empty(namespaces), steps);
      && (forall g :: g in w.graphs ==> |ActiveAmong(w.jobs, w.graphs[g].nodes)| <= w.graphs[g].maxActive)
      && (forall c :: c in w.collections && !w.collections[c].slurmArray ==>
           |ActiveAmong(w.jobs, w.collections[c].items)| <= w.collections[c].maxActive)
  {
    Reachable(namespaces, steps);
    var w := Run(Empty(namespaces), steps);
    forall g | g in w.graphs
      ensures |ActiveAmong(w.jobs, w.graphs[g].nodes)| <= w.graphs[g].maxActive
    {
      assert GraphSafe(w.jobs, w.graphs[g]);
    }
    forall c | c in w.collections && !w.collections[c].slurmArray
      ensures |ActiveAmong(w.jobs, w.collections[c].items)| <= w.collections[c].maxActive
    {
      assert CollectionSafe(w.jobs, w.collections[c]);
    }
  }

  /** All executions of one Slurm array are on one agent. */
  lemma ArraysShareAgent(namespaces: map<nat, NamespacePolicy>, steps: seq<Step>, c: nat, i: nat, j: nat)
    requires var w := Run(Empty(namespaces), steps);
      && c in w.collections && w.collections[c].slurmArray && i in w.collections[c].items && j in w.collections[c].items
      && i in w.jobs && j in w.jobs && Dispatched(w.jobs[i].life) && Dispatched(w.jobs[j].life)
    ensures var w := Run(Empty(namespaces), steps); w.jobs[i].life.dispatch.agent == w.jobs[j].life.dispatch.agent
  {
    Reachable(namespaces, steps);
    assert CollectionSafe(Run(Empty(namespaces), steps).jobs, Run(Empty(namespaces), steps).collections[c]);
  }

  // ----- launch safety

  /** An authorization speaks of exactly the offer and acceptance that the job keeps. */
  ghost predicate Describes(r: Authorization, job: Job) {
    && Authorized(job.life) && r.id == job.life.dispatch.delivery && r.execution == job.life.dispatch.execution
    && r.agent == job.life.dispatch.agent && r.digest == job.life.dispatch.digest && r.generation == job.spec.generation
    && r.acceptedAt == job.life.acceptance.at && r.revision <= job.life.revision
  }

  lemma GrantedDescribes(w: World, j: nat, who: Identity, a: AcceptanceRequest, now: nat)
    requires Accept(w, j, who, a, now).1.Ok?
    ensures var (v, reply) := Accept(w, j, who, a, now);
      j in w.jobs && j in v.jobs && Describes(reply.value, v.jobs[j]) && reply.value.revision == v.jobs[j].life.revision
    ensures Authorized(w.jobs[j].life) ==>
      Accept(w, j, who, a, now).1.value.replayed && Accept(w, j, who, a, now).0.jobs[j] == w.jobs[j]
  {
  }

  lemma DescribesLater(r: Authorization, a: Job, b: Job)
    requires Describes(r, a) && Later(a, b)
    ensures Describes(r, b)
  {
  }

  ghost function WorldAt(namespaces: map<nat, NamespacePolicy>, steps: seq<Step>, p: nat): World
    requires p <= |steps|
  {
    Run(Empty(namespaces), steps[..p])
  }

  lemma RunSplit(w: World, steps: seq<Step>, p: nat, q: nat)
    requires p <= q <= |steps|
    ensures Onward(Run(w, steps[..p]), Run(w, steps[..q]))
  {
    assert steps[..q] == steps[..p] + steps[p..q];
    RunOnward(w, steps[..p], steps[p..q]);
  }

  lemma RunNext(w: World, steps: seq<Step>, p: nat)
    requires p < |steps|
    ensures Run(w, steps[..p + 1]) == Apply(Run(w, steps[..p]), steps[p])
  {
    assert steps[..p + 1][..p] == steps[..p];
  }

  /** Of two granted acceptances of one job in a run, the later one is a replay of the same authorization,
      at no lower a revision: a job is launched at most once. */
  lemma LaunchedAtMostOnce(namespaces: map<nat, NamespacePolicy>, steps: seq<Step>, p: nat, q: nat)
    requires p < q < |steps| && steps[p].AcceptStep? && steps[q].AcceptStep? && steps[p].j == steps[q].j
    requires Accept(WorldAt(namespaces, steps, p), steps[p].j, steps[p].who, steps[p].acceptance, steps[p].now).1.Ok?
    requires Accept(WorldAt(namespaces, steps, q), steps[q].j, steps[q].who, steps[q].acceptance, steps[q].now).1.Ok?
    ensures var first :=
      Accept(WorldAt(namespaces, steps, p), steps[p].j, steps[p].who, steps[p].acceptance, steps[p].now).1.value;
      var second :=
        Accept(WorldAt(namespaces, steps, q), steps[q].j, steps[q].who, steps[q].acceptance, steps[q].now).1.value;
      second.replayed && first.revision <= second.revision
        && second == first.(revision := second.revision, replayed := true)
  {
    var j := steps[p].j;
    var w, v := WorldAt(namespaces, steps, p), WorldAt(namespaces, steps, q);
    RunNext(Empty(namespaces), steps, p);
    RunSplit(Empty(namespaces), steps, p + 1, q);
    GrantedDescribes(w, j, steps[p].who, steps[p].acceptance, steps[p].now);
    GrantedDescribes(v, j, steps[q].who, steps[q].acceptance, steps[q].now);
    DescribesLater(Accept(w, j, steps[p].who, steps[p].acceptance, steps[p].now).1.value,
      Run(Empty(namespaces), steps[..p + 1]).jobs[j], v.jobs[j]);
  }

  /** Cancelling a job that no agent has accepted ends it without an authorization. */
  lemma CancelEndsUnaccepted(w: World, j: nat)
    requires Inv(w) && j in w.jobs && !Authorized(w.jobs[j].life)
    ensures j in CancelJob(w, j).jobs && Terminal(CancelJob(w, j).jobs[j].life)
    ensures !Authorized(CancelJob(w, j).jobs[j].life)
  {
    assert JobOk(w.jobs[j]);
    if !Terminal(w.jobs[j].life) {
      CompleteGraphSettling(CancelRow(w, j), j);
      assert Quiet(CancelRow(w, j).jobs[j], CompleteGraph(CancelRow(w, j), j).jobs[j]);
    }
  }

  lemma UnauthorizedEndRefuses(w: World, j: nat, who: Identity, a: AcceptanceRequest, now: nat)
    requires j in w.jobs && Terminal(w.jobs[j].life) && !Authorized(w.jobs[j].life)
    ensures Accept(w, j, who, a, now).1.Err?
  {
  }

  /** Once a cancellation commits before any acceptance, no continuation authorizes a launch. */
  lemma NoLaunchAfterCancel(namespaces: map<nat, NamespacePolicy>, steps: seq<Step>, j: nat, more: seq<Step>,
      who: Identity, a: AcceptanceRequest, now: nat)
    requires j in Run(Empty(namespaces), steps).jobs && !Authorized(Run(Empty(namespaces), steps).jobs[j].life)
    ensures Accept(Run(Empty(namespaces), steps + [CancelJobStep(j)] + more), j, who, a, now).1.Err?
  {
    var cancelled := steps + [CancelJobStep(j)];
    assert cancelled[..|cancelled| - 1] == steps;
    Reachable(namespaces, steps);
    CancelEndsUnaccepted(Run(Empty(namespaces), steps), j);
    RunOnward(Empty(namespaces), cancelled, more);
    UnauthorizedEndRefuses(Run(Empty(namespaces), cancelled + more), j, who, a, now);
  }

  // ----- stopping a group

  ghost predicate AllStopped(w: World, ids: seq<nat>) {
    forall j :: j in ids ==> Stopped(w, j)
  }

  /** Cancelling a graph stops every node. */
  lemma CancelGraphStops(w: World, g: nat)
    requires Inv(w) && g in w.graphs
    ensures AllStopped(CancelGraph(w, g), w.graphs[g].nodes)
  {
    assert GraphLinked(w, g);
    CancelAllStops(w, w.graphs[g].nodes);
    forall j | j in w.graphs[g].nodes ensures Stopped(CancelGraph(w, g), j) {
      assert Stopped(CancelAll(w, w.graphs[g].nodes), j);
    }
  }

  lemma FailFastStopsIn(w: World, j: nat, c: nat)
    requires Linked(w) && j in w.jobs && w.jobs[j].spec.group == InCollection(c) && c in w.collections
    requires w.collections[c].failFast
    requires OutcomeOf(w.jobs[j].life) != Some(Success)
    ensures AllStopped(CompleteCollection(w, j), w.collections[c].items)
    ensures CompleteGraph(CompleteCollection(w, j), j) == CompleteCollection(w, j)
  {
    assert CollectionLinked(w, c);
    CancelAllStops(w, w.collections[c].items);
    CancelAllSettling(w, w.collections[c].items);
    assert Quiet(w.jobs[j], CancelAll(w, w.collections[c].items).jobs[j]);
    forall i | i in w.collections[c].items ensures Stopped(CompleteCollection(w, j), i) {
      assert Stopped(CancelAll(w, w.collections[c].items), i);
    }
  }

  lemma ObservedLinked(w: World, j: nat, e: Event)
    requires Linked(w) && j in w.jobs && w.jobs[j].life.Live?
    ensures Linked(Observed(w, j, e))
  {
    RowSettling(w, Observed(w, j, e), j);
    SettlingLinked(w, Observed(w, j, e));
  }

  lemma CompletionIs(w: World, j: nat, who: Identity, e: Event)
    requires Record(w, j, who, e).1 == Ok(false) && IsCompletion(e.kind)
    ensures j in w.jobs && w.jobs[j].life.Live?
    ensures Record(w, j, who, e).0 == CompleteGraph(CompleteCollection(Observed(w, j, e), j), j)
  {
  }

  lemma ObservedOutcome(w: World, j: nat, e: Event)
    requires j in w.jobs && w.jobs[j].life.Live? && IsCompletion(e.kind)
    ensures j in Observed(w, j, e).jobs && OutcomeOf(Observed(w, j, e).jobs[j].life) == Some(e.outcome)
    ensures Observed(w, j, e).jobs[j].spec == w.jobs[j].spec && Observed(w, j, e).collections == w.collections
  {
  }

  /** A member of a fail-fast collection that ends without success stops every sibling. */
  lemma FailFastStops(w: World, j: nat, who: Identity, e: Event, c: nat)
    requires Linked(w) && Record(w, j, who, e).1 == Ok(false) && IsCompletion(e.kind) && e.outcome != Success
    requires w.jobs[j].spec.group == InCollection(c) && c in w.collections && w.collections[c].failFast
    ensures AllStopped(Record(w, j, who, e).0, w.collections[c].items)
  {
    CompletionIs(w, j, who, e);
    ObservedLinked(w, j, e);
    ObservedOutcome(w, j, e);
    FailFastStopsIn(Observed(w, j, e), j, c);
  }

  lemma StoppedLater(w: World, v: World, j: nat)
    requires Stopped(w, j) && Onward(w, v)
    ensures Stopped(v, j)
  {
    assert Later(w.jobs[j], v.jobs[j]);
  }

  /** A stopped job is never offered, and an acceptance of it is at most a replay. */
  lemma StoppedNeverLaunches(w: World, j: nat)
    requires Stopped(w, j)
    ensures forall env, run, execution, delivery, digest, now ::
      Offer(w, env, j, run, execution, delivery, digest, now) == w
    ensures forall who, a, now :: Accept(w, j, who, a, now).1.Ok? ==> Accept(w, j, who, a, now).1.value.replayed
  {
  }

  /** From a stopped group no continuation offers or newly authorizes any member, and its unfinished
      members keep their single cancel action. */
  lemma StopIsClosed(w: World, ids: seq<nat>, more: seq<Step>, j: nat)
    requires AllStopped(w, ids) && j in ids
    ensures AllStopped(Run(w, more), ids)
    ensures forall env, run, execution, delivery, digest, now ::
      Offer(Run(w, more), env, j, run, execution, delivery, digest, now) == Run(w, more)
    ensures forall who, a, now :: Accept(Run(w, more), j, who, a, now).1.Ok? ==>
      Accept(Run(w, more), j, who, a, now).1.value.replayed
  {
    RunOnward(w, [], more);
    assert [] + more == more;
    forall i | i in ids ensures Stopped(Run(w, more), i) { StoppedLater(w, Run(w, more), i); }
    StoppedNeverLaunches(Run(w, more), j);
  }
}
