/** Submission and dispatch keep the invariant of the world. */
module Dispatching {
  import opened Base
  import opened Domain
  import opened Propagation
  import opened ControlPlane
  import opened Digraphs
  import opened Invariants
  import opened Preservation
  import Requests = GraphRequests

  // ----- offering a job

  /** v is w with the waiting job j offered under unused ids. */
  ghost predicate Offering(w: World, v: World, j: nat) {
    && j in w.jobs && j in v.jobs && w.jobs[j].life.Waiting? && v.jobs[j].life.Offered?
    && v.jobs == w.jobs[j := v.jobs[j]]
    && v.jobs[j].spec == w.jobs[j].spec && v.jobs[j].desire == w.jobs[j].desire == ToRun
    && UnusedIds(w, v.jobs[j].life.dispatch.execution, v.jobs[j].life.dispatch.delivery)
    && v.graphs == w.graphs && v.collections == w.collections && v.actions == w.actions && v.logs == w.logs
    && v.namespaces.Keys == w.namespaces.Keys
    && GroupAllows(w, j) && Affine(w, j, v.jobs[j].life.dispatch.agent)
  }

  lemma OfferOffers(w: World, env: Surroundings, j: nat, run: nat, execution: nat, delivery: nat, digest: nat, now: nat)
    ensures var v := Offer(w, env, j, run, execution, delivery, digest, now); v == w || Offering(w, v, j)
  {
    var v := Offer(w, env, j, run, execution, delivery, digest, now);
    if v != w { assert v.namespaces.Keys == w.namespaces.Keys; }
  }

  lemma OfferingLinked(w: World, v: World, j: nat)
    requires Linked(w) && Offering(w, v, j)
    ensures Linked(v)
  {
    forall g | g in v.graphs ensures GraphLinked(v, g) { assert GraphLinked(w, g); }
    forall c | c in v.collections ensures CollectionLinked(v, c) { assert CollectionLinked(w, c); }
    forall k | k in v.jobs ensures v.jobs[k].spec.namespace in v.namespaces && GroupOk(v, k) { assert GroupOk(w, k); }
  }

  lemma OneMoreActive(w: World, v: World, j: nat, ids: seq<nat>)
    requires Offering(w, v, j)
    ensures |ActiveAmong(v.jobs, ids)| <= |ActiveAmong(w.jobs, ids)| + 1
    ensures j !in ids ==> ActiveAmong(v.jobs, ids) == ActiveAmong(w.jobs, ids)
  {
    assert ActiveAmong(v.jobs, ids) <= ActiveAmong(w.jobs, ids) + {j};
    SubsetSize(ActiveAmong(v.jobs, ids), ActiveAmong(w.jobs, ids) + {j});
  }

  lemma OfferingSatisfied(w: World, v: World, j: nat, e: Edge)
    requires Offering(w, v, j)
    ensures Satisfied(v.jobs, e) <==> Satisfied(w.jobs, e)
  {
  }

  lemma OfferingGraph(w: World, v: World, j: nat, g: nat)
    requires Linked(w) && GraphsSafe(w) && Offering(w, v, j) && g in w.graphs
    ensures GraphSafe(v.jobs, v.graphs[g])
  {
    assert GraphLinked(w, g) && GraphSafe(w.jobs, w.graphs[g]) && GroupOk(w, j);
    OneMoreActive(w, v, j, w.graphs[g].nodes);
    forall e | e in v.graphs[g].edges && Dispatched(v.jobs[e.downstream].life) ensures Satisfied(v.jobs, e) {
      OfferingSatisfied(w, v, j, e);
      if e.downstream == j { assert Ready(w.jobs, w.graphs[g], j); }
    }
  }

  lemma OfferingCollection(w: World, v: World, j: nat, c: nat)
    requires Linked(w) && CollectionsSafe(w) && Offering(w, v, j) && c in w.collections
    ensures CollectionSafe(v.jobs, v.collections[c])
  {
    assert CollectionLinked(w, c) && CollectionSafe(w.jobs, w.collections[c]) && GroupOk(w, j);
    OneMoreActive(w, v, j, w.collections[c].items);
    if w.collections[c].slurmArray && j in w.collections[c].items {
      var first := FirstDispatch(w.jobs, w.collections[c].items);
      forall i | i in w.collections[c].items && i != j && Dispatched(v.jobs[i].life)
        ensures v.jobs[i].life.dispatch.agent == v.jobs[j].life.dispatch.agent
      {
        assert v.jobs[i] == w.jobs[i] && first.Some?;
      }
    }
  }

  lemma OfferingSettled(w: World, v: World, j: nat)
    requires Linked(w) && GraphsSettled(w) && Offering(w, v, j)
    ensures GraphsSettled(v)
  {
    forall g | g in v.graphs ensures Settled(v.jobs, v.graphs[g]) {
      assert GraphLinked(w, g);
      UntouchedSettled(w, v, g);
    }
  }

  lemma OfferingIds(w: World, v: World, j: nat)
    requires UniqueIds(w) && Offering(w, v, j)
    ensures UniqueIds(v)
  {
  }

  lemma OfferingActions(w: World, v: World, j: nat)
    requires ActionsOk(w) && Offering(w, v, j)
    ensures ActionsOk(v)
  {
    forall x | x in v.actions ensures Owned(v, x) && x != v.jobs[j].life.dispatch.execution {
      assert Owned(w, x);
      var i :| i in w.jobs && Dispatched(w.jobs[i].life) && w.jobs[i].life.dispatch.execution == x;
      assert v.jobs[i] == w.jobs[i];
    }
  }

  lemma OfferingKeeps(w: World, v: World, j: nat)
    requires Inv(w) && Offering(w, v, j)
    ensures Inv(v)
  {
    OfferingLinked(w, v, j);
    forall g | g in v.graphs ensures GraphSafe(v.jobs, v.graphs[g]) { OfferingGraph(w, v, j, g); }
    forall c | c in v.collections ensures CollectionSafe(v.jobs, v.collections[c]) { OfferingCollection(w, v, j, c); }
    OfferingSettled(w, v, j);
    OfferingIds(w, v, j);
    OfferingActions(w, v, j);
    OfferingSides(w, v, j);
  }

  lemma OfferingSides(w: World, v: World, j: nat)
    requires JobsOk(w) && LogsOk(w) && Offering(w, v, j)
    ensures JobsOk(v) && LogsOk(v)
  {
    SameLogs(w, v);
  }

  lemma OfferKeeps(w: World, env: Surroundings, j: nat, run: nat, execution: nat, delivery: nat, digest: nat, now: nat)
    requires Inv(w)
    ensures Inv(Offer(w, env, j, run, execution, delivery, digest, now))
  {
    var v := Offer(w, env, j, run, execution, delivery, digest, now);
    OfferOffers(w, env, j, run, execution, delivery, digest, now);
    if v != w { OfferingKeeps(w, v, j); }
  }

  // ----- submitting

  /** v is w with new waiting jobs ids, bound to the given group. */
  ghost predicate Adding(w: World, v: World, ids: seq<nat>, group: Group) {
    && v.jobs.Keys == w.jobs.Keys + (set j | j in ids)
    && (forall j :: j in w.jobs ==> j !in ids && v.jobs[j] == w.jobs[j])
    && (forall j :: j in ids ==>
         v.jobs[j].life.Waiting? && v.jobs[j].desire == ToRun && v.jobs[j].spec.group == group
           && v.jobs[j].spec.namespace in w.namespaces)
    && v.actions == w.actions && v.logs == w.logs && v.namespaces == w.namespaces
    && w.graphs.Keys <= v.graphs.Keys && (forall g :: g in w.graphs ==> v.graphs[g] == w.graphs[g])
    && w.collections.Keys <= v.collections.Keys
         && (forall c :: c in w.collections ==> v.collections[c] == w.collections[c])
    && NewGroup(w, v, ids, group)
  }

  ghost predicate NewGroup(w: World, v: World, ids: seq<nat>, group: Group) {
    match group
    case Alone => v.graphs == w.graphs && v.collections == w.collections
    case InGraph(g) =>
      && v.collections == w.collections && g !in w.graphs && v.graphs.Keys == w.graphs.Keys + {g}
      && v.graphs[g].nodes == ids && Distinct(ids) && Edges(v.graphs[g]) && v.graphs[g].maxActive >= 1
           && !HasCycle(ArrowsIn(v.graphs[g]))
    case InCollection(c) =>
      && v.graphs == w.graphs && c !in w.collections && v.collections.Keys == w.collections.Keys + {c}
      && v.collections[c].items == ids && Distinct(ids)
  }

  lemma AddingLinked(w: World, v: World, ids: seq<nat>, group: Group)
    requires Linked(w) && Adding(w, v, ids, group)
    ensures Linked(v)
  {
    forall g | g in v.graphs ensures GraphLinked(v, g) { if g in w.graphs { assert GraphLinked(w, g); } }
    forall c | c in v.collections
      ensures CollectionLinked(v, c)
    {
      if c in w.collections { assert CollectionLinked(w, c); }
    }
    forall k | k in v.jobs ensures v.jobs[k].spec.namespace in v.namespaces && GroupOk(v, k) {
      if k in w.jobs { assert GroupOk(w, k); }
    }
  }

  lemma FreshGraph(jobs: Jobs, g: Graph)
    requires Edges(g) && g.maxActive >= 1 && forall j :: j in g.nodes ==> j in jobs && jobs[j].life.Waiting?
    ensures GraphSafe(jobs, g) && Settled(jobs, g)
  {
    assert ActiveAmong(jobs, g.nodes) == {};
    forall j | j in g.nodes ensures !Stuck(jobs, g, j) {
      if e :| e in g.edges && e.downstream == j { assert !Finished(jobs, e); }
    }
  }

  lemma OldGraphKept(w: World, v: World, ids: seq<nat>, group: Group, g: nat)
    requires GraphsSafe(w) && GraphsSettled(w) && Adding(w, v, ids, group) && g in w.graphs && GraphLinked(w, g)
    ensures GraphSafe(v.jobs, v.graphs[g]) && Settled(v.jobs, v.graphs[g])
  {
    QuietKeepsGraph(w.jobs, v.jobs, w.graphs[g]);
    UntouchedSettled(w, v, g);
  }

  lemma AddingGraphs(w: World, v: World, ids: seq<nat>, group: Group)
    requires Linked(w) && GraphsSafe(w) && GraphsSettled(w) && Adding(w, v, ids, group)
    ensures GraphsSafe(v) && GraphsSettled(v)
  {
    forall g | g in v.graphs ensures GraphSafe(v.jobs, v.graphs[g]) && Settled(v.jobs, v.graphs[g]) {
      if g in w.graphs { OldGraphKept(w, v, ids, group, g); } else { FreshGraph(v.jobs, v.graphs[g]); }
    }
  }

  lemma AddingCollections(w: World, v: World, ids: seq<nat>, group: Group)
    requires Linked(w) && CollectionsSafe(w) && Adding(w, v, ids, group)
    ensures CollectionsSafe(v)
  {
    forall c | c in v.collections ensures CollectionSafe(v.jobs, v.collections[c]) {
      if c in w.collections {
        assert CollectionLinked(w, c);
        QuietKeepsCollection(w.jobs, v.jobs, w.collections[c]);
      } else {
        assert ActiveAmong(v.jobs, v.collections[c].items) == {};
      }
    }
  }

  lemma AddingSides(w: World, v: World, ids: seq<nat>, group: Group)
    requires JobsOk(w) && UniqueIds(w) && ActionsOk(w) && LogsOk(w) && Adding(w, v, ids, group)
    ensures JobsOk(v) && UniqueIds(v) && ActionsOk(v) && LogsOk(v)
  {
    UndispatchedActions(w, v);
    SameLogs(w, v);
  }

  lemma AddingKeeps(w: World, v: World, ids: seq<nat>, group: Group)
    requires Inv(w) && Adding(w, v, ids, group)
    ensures Inv(v)
  {
    AddingLinked(w, v, ids, group);
    AddingGraphs(w, v, ids, group);
    AddingCollections(w, v, ids, group);
    AddingSides(w, v, ids, group);
  }

  lemma AddJobsAdds(w: World, ids: seq<nat>, specs: seq<Spec>, group: Group)
    requires NewJobs(w, ids, specs, group)
    ensures var jobs := AddJobs(w.jobs, ids, specs);
      && jobs.Keys == w.jobs.Keys + (set j | j in ids)
      && (forall j :: j in w.jobs ==> j !in ids && jobs[j] == w.jobs[j])
      && (forall j :: j in ids ==>
           jobs[j].life.Waiting? && jobs[j].desire == ToRun && jobs[j].spec.group == group
             && jobs[j].spec.namespace in w.namespaces)
      && Distinct(ids)
  {
    NewJobsAreNew(w, ids, specs, group);
    AddJobsKeeps(w.jobs, ids, specs);
  }

  /** The edges of a stored graph join its nodes. */
  lemma StoredEdges(r: Requests.Request, ids: seq<nat>)
    requires |ids| == |r.nodes| && Requests.ValidEdges(r.edges, Requests.Names(r.nodes))
    ensures forall e :: e in EdgesFor(r, ids) ==> e.upstream in ids && e.downstream in ids
  {
  }

  ghost function NamesById(r: Requests.Request, ids: seq<nat>): map<nat, string>
    requires |ids| == |r.nodes| && Distinct(ids)
  {
    map i | 0 <= i < |ids| :: ids[i] := r.nodes[i].name
  }

  /** A stored edge, read back by name, is the edge that was requested. */
  lemma ArrowNamed(r: Requests.Request, ids: seq<nat>, e: Requests.Edge)
    requires |ids| == |r.nodes| && Distinct(ids) && Requests.ValidEdge(e, Requests.Names(r.nodes))
    ensures var names, stored := NamesById(r, ids), EdgeFor(r, ids, e);
      stored.upstream in names && stored.downstream in names && names[stored.upstream] == e.from
        && names[stored.downstream] == e.to
  {
    NamedBack(r, ids, e.from);
    NamedBack(r, ids, e.to);
  }

  lemma StoredArrowNamed(r: Requests.Request, ids: seq<nat>, k: nat)
    requires |ids| == |r.nodes| && Distinct(ids) && Requests.ValidEdges(r.edges, Requests.Names(r.nodes))
    requires k < |r.edges|
    ensures var names, e := NamesById(r, ids), EdgesFor(r, ids)[k];
      e.upstream in names && e.downstream in names
        && (names[e.upstream], names[e.downstream]) in Requests.Arrows(r.edges)
  {
    ArrowNamed(r, ids, r.edges[k]);
    assert (r.edges[k].from, r.edges[k].to) in Requests.Arrows(r.edges);
  }

  lemma StoredArrowsNamed(r: Requests.Request, ids: seq<nat>, arrows: set<(nat, nat)>)
    requires |ids| == |r.nodes| && Distinct(ids) && Requests.ValidEdges(r.edges, Requests.Names(r.nodes))
    requires arrows == set e | e in EdgesFor(r, ids) :: (e.upstream, e.downstream)
    ensures forall a :: a in arrows ==>
      a.0 in NamesById(r, ids) && a.1 in NamesById(r, ids)
        && (NamesById(r, ids)[a.0], NamesById(r, ids)[a.1]) in Requests.Arrows(r.edges)
  {
    forall a | a in arrows
      ensures a.0 in NamesById(r, ids) && a.1 in NamesById(r, ids)
        && (NamesById(r, ids)[a.0], NamesById(r, ids)[a.1]) in Requests.Arrows(r.edges)
    {
      var e :| e in EdgesFor(r, ids) && a == (e.upstream, e.downstream);
      var k :| 0 <= k < |r.edges| && EdgesFor(r, ids)[k] == e;
      StoredArrowNamed(r, ids, k);
    }
  }

  /** A cycle among the stored jobs would be a cycle among the request's names: the decoder's check
      is what keeps stored graphs acyclic. */
  lemma StoredGraphAcyclic(r: Requests.Request, ids: seq<nat>)
    requires Requests.Admissible(r) && |ids| == |r.nodes| && Distinct(ids)
    ensures !HasCycle(ArrowsIn(GraphFor(r, ids)))
  {
    var arrows := ArrowsIn(GraphFor(r, ids));
    StoredArrowsNamed(r, ids, arrows);
    CycleImage<nat, string>(arrows, Requests.Arrows(r.edges), NamesById(r, ids));
  }

  lemma NamedBack(r: Requests.Request, ids: seq<nat>, name: string)
    requires |ids| == |r.nodes| && Distinct(ids) && name in Requests.Names(r.nodes)
    ensures JobNamed(r.nodes, ids, name) in NamesById(r, ids) && NamesById(r, ids)[JobNamed(r.nodes, ids, name)] == name
  {
  }

  lemma SubmitJobKeeps(w: World, id: nat, spec: Spec)
    requires Inv(w)
    ensures Inv(SubmitJob(w, id, spec))
  {
    if NewJobs(w, [id], [spec], Alone) {
      assert [id][0] !in w.jobs && [spec][0].group == Alone;
      AddingKeeps(w, SubmitJob(w, id, spec), [id], Alone);
    }
  }

  lemma SubmitCollectionKeeps(w: World, c: nat, ids: seq<nat>, specs: seq<Spec>, maxActive: nat, failFast: bool,
      slurmArray: bool)
    requires Inv(w)
    ensures Inv(SubmitCollection(w, c, ids, specs, maxActive, failFast, slurmArray))
  {
    var v := SubmitCollection(w, c, ids, specs, maxActive, failFast, slurmArray);
    if v != w {
      AddJobsAdds(w, ids, specs, InCollection(c));
      AddingKeeps(w, v, ids, InCollection(c));
    }
  }

  lemma SubmitGraphAdds(w: World, g: nat, r: Requests.Request, ids: seq<nat>, specs: seq<Spec>)
    ensures var v := SubmitGraph(w, g, r, ids, specs); v == w || Adding(w, v, ids, InGraph(g))
  {
    var v := SubmitGraph(w, g, r, ids, specs);
    if v != w {
      AddJobsAdds(w, ids, specs, InGraph(g));
      StoredEdges(r, ids);
      StoredGraphAcyclic(r, ids);
    }
  }

  lemma SubmitGraphKeeps(w: World, g: nat, r: Requests.Request, ids: seq<nat>, specs: seq<Spec>)
    requires Inv(w)
    ensures Inv(SubmitGraph(w, g, r, ids, specs))
  {
    SubmitGraphAdds(w, g, r, ids, specs);
    if SubmitGraph(w, g, r, ids, specs) != w { AddingKeeps(w, SubmitGraph(w, g, r, ids, specs), ids, InGraph(g)); }
  }

  // ----- every step, every run

  lemma GrowthKeeps(w: World, s: Step)
    requires Inv(w) && Dispatches(s)
    ensures Inv(Apply(w, s))
  {
    match s
    case SubmitJobStep(id, spec) => SubmitJobKeeps(w, id, spec);
    case SubmitCollectionStep(c, ids, specs, m, f, a) => SubmitCollectionKeeps(w, c, ids, specs, m, f, a);
    case SubmitGraphStep(g, r, ids, specs) => SubmitGraphKeeps(w, g, r, ids, specs);
    case OfferStep(env, j, run, execution, delivery, digest, now) =>
      OfferKeeps(w, env, j, run, execution, delivery, digest, now);
  }

  /** Every transaction keeps the invariant. */
  lemma StepKeeps(w: World, s: Step)
    requires Inv(w)
    ensures Inv(Apply(w, s))
  {
    if Dispatches(s) {
      GrowthKeeps(w, s);
    } else {
      match s
      case AcceptStep(j, who, a, now) => AcceptKeeps(w, j, who, a, now);
      case RecordStep(j, who, e) => RecordKeeps(w, j, who, e);
      case CancelJobStep(j) => CancelJobKeeps(w, j);
      case CancelGraphStep(g) => CancelGraphKeeps(w, g);
      case AcknowledgeStep(j, who) => AcknowledgeKeeps(w, j, who);
      case MarkStaleStep(j) => MarkStaleKeeps(w, j);
      case CommitLogStep(j, agent, store, version, prefix, c) => CommitLogKeeps(w, j, agent, store, version, prefix, c);
    }
  }

  lemma {:induction false} RunKeeps(w: World, steps: seq<Step>)
    requires Inv(w)
    ensures Inv(Run(w, steps))
  {
    if steps != [] {
      RunKeeps(w, steps[..|steps| - 1]);
      StepKeeps(Run(w, steps[..|steps| - 1]), steps[|steps| - 1]);
    }
  }

  /** The invariant holds in every state that any run from an empty store reaches. */
  lemma Reachable(namespaces: map<nat, NamespacePolicy>, steps: seq<Step>)
    ensures Inv(Run(Empty(namespaces), steps))
  {
    RunKeeps(Empty(namespaces), steps);
  }
}
