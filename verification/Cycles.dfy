/** Why progress rests on acyclicity: what becomes of a stored cycle. */
module Cycles {
  import opened Base
  import opened Domain
  import opened Propagation
  import opened ControlPlane
  import opened Digraphs
  import opened Invariants
  import opened Preservation

  /** Acyclicity is what progress rests on: on a cycle of waiting nodes none is dispatchable, and
      propagation does not dispose of one either. */
  lemma WaitingCycleIsDead(jobs: Jobs, g: Graph, p: seq<nat>, k: nat)
    requires IsCycle(ArrowsIn(g), p) && k < |p|
    requires forall i :: 0 <= i < |p| ==> p[i] in jobs && jobs[p[i]].life.Waiting?
    ensures !Ready(jobs, g, p[k]) && !Stuck(jobs, g, p[k])
  {
    var i := if k == 0 then |p| - 1 else k;
    assert (p[i - 1], p[i - 1 + 1]) in ArrowsIn(g);
    var e :| e in g.edges && e.upstream == p[i - 1] && e.downstream == p[i];
    assert !Finished(jobs, e) && !Satisfied(jobs, e);
  }

  /** Members name their group, and no others are listed. */
  ghost predicate Grouped(w: World) {
    && (forall g, j :: g in w.graphs && j in w.graphs[g].nodes ==> j in w.jobs && w.jobs[j].spec.group == InGraph(g))
    && (forall c, j :: c in w.collections && j in w.collections[c].items ==>
         j in w.jobs && w.jobs[j].spec.group == InCollection(c))
  }

  /** All nodes of a cycle of the stored graph are waiting. */
  ghost predicate Trapped(w: World, g: nat, p: seq<nat>) {
    && Grouped(w) && g in w.graphs && IsCycle(ArrowsIn(w.graphs[g]), p)
    && forall i :: 0 <= i < |p| ==> WaitsIn(w, g, p[i])
  }

  ghost predicate WaitsIn(w: World, g: nat, j: nat) {
    j in w.jobs && w.jobs[j].life.Waiting? && w.jobs[j].spec.group == InGraph(g)
  }

  lemma {:induction false} PropagateTrapped(jobs: Jobs, g: Graph, p: seq<nat>)
    requires IsCycle(ArrowsIn(g), p) && forall i :: 0 <= i < |p| ==> p[i] in jobs && jobs[p[i]].life.Waiting?
    ensures forall i :: 0 <= i < |p| ==> p[i] in Propagate(jobs, g) && Propagate(jobs, g)[p[i]] == jobs[p[i]]
    decreases WaitingNodes(jobs, g)
  {
    match FirstStuck(jobs, g, 0)
    case None =>
    case Some(j) =>
      ResolveShrinks(jobs, g, j);
      forall i | 0 <= i < |p| ensures p[i] != j { WaitingCycleIsDead(jobs, g, p, i); }
      PropagateTrapped(Resolve(jobs, g, j), g, p);
  }

  lemma CompleteGraphTrapped(w: World, k: nat, g: nat, p: seq<nat>)
    requires Trapped(w, g, p)
    ensures forall i :: 0 <= i < |p| ==> WaitsIn(CompleteGraph(w, k), g, p[i])
  {
    if k in w.jobs && w.jobs[k].spec.group.InGraph? && w.jobs[k].spec.group.graph in w.graphs {
      var other := w.jobs[k].spec.group.graph;
      if other == g {
        PropagateTrapped(w.jobs, w.graphs[g], p);
      } else {
        PropagateEffect(w.jobs, w.graphs[other]);
        forall i | 0 <= i < |p| ensures WaitsIn(CompleteGraph(w, k), g, p[i]) {
          assert DisposedRightly(w.jobs, Propagate(w.jobs, w.graphs[other]), w.graphs[other], p[i]);
          assert p[i] !in w.graphs[other].nodes;
        }
      }
    }
  }

  lemma CancelAllTrapped(w: World, ids: seq<nat>, g: nat, p: seq<nat>)
    requires Trapped(w, g, p) && forall j :: j in ids && j in w.jobs ==> w.jobs[j].spec.group != InGraph(g)
    ensures forall i :: 0 <= i < |p| ==> WaitsIn(CancelAll(w, ids), g, p[i])
  {
    CancelAllElsewhere(w, ids);
    forall i | 0 <= i < |p| ensures WaitsIn(CancelAll(w, ids), g, p[i]) { assert WaitsIn(w, g, p[i]); }
  }

  lemma CompleteCollectionTrapped(w: World, k: nat, g: nat, p: seq<nat>)
    requires Trapped(w, g, p)
    ensures Trapped(CompleteCollection(w, k), g, p)
  {
    if k in w.jobs && w.jobs[k].spec.group.InCollection? && w.jobs[k].spec.group.collection in w.collections {
      CancelAllTrapped(w, w.collections[w.jobs[k].spec.group.collection].items, g, p);
    }
    CompleteCollectionSettling(w, k);
    SettlingTraps(w, CompleteCollection(w, k), g, p);
  }

  lemma SettlingGrouped(w: World, v: World)
    requires Grouped(w) && Settling(w, v)
    ensures Grouped(v)
  {
    forall c, j | c in v.collections && j in v.collections[c].items
      ensures j in v.jobs && v.jobs[j].spec.group == InCollection(c)
    {
      assert SameCollection(w.collections[c], v.collections[c]) && Quiet(w.jobs[j], v.jobs[j]);
    }
    forall h, j | h in v.graphs && j in v.graphs[h].nodes ensures j in v.jobs && v.jobs[j].spec.group == InGraph(h) {
      assert SameGraph(w.graphs[h], v.graphs[h]) && Quiet(w.jobs[j], v.jobs[j]);
    }
  }

  /** A quiet transaction that leaves the cycle's nodes waiting leaves them trapped. */
  lemma SettlingTraps(w: World, v: World, g: nat, p: seq<nat>)
    requires Trapped(w, g, p) && Settling(w, v) && forall i :: 0 <= i < |p| ==> WaitsIn(v, g, p[i])
    ensures Trapped(v, g, p)
  {
    SettlingGrouped(w, v);
    assert SameGraph(w.graphs[g], v.graphs[g]);
  }

  lemma RecordTrapped(w: World, k: nat, who: Identity, e: Event, g: nat, p: seq<nat>)
    requires Trapped(w, g, p)
    ensures forall i :: 0 <= i < |p| ==> WaitsIn(Record(w, k, who, e).0, g, p[i])
  {
    if Record(w, k, who, e).1 == Ok(false) {
      ObservedTrapped(w, k, e, g, p);
      if IsCompletion(e.kind) { CompletionTrapped(Observed(w, k, e), k, g, p); }
    }
  }

  lemma ObservedTrapped(w: World, k: nat, e: Event, g: nat, p: seq<nat>)
    requires Trapped(w, g, p) && k in w.jobs && w.jobs[k].life.Live?
    ensures Trapped(Observed(w, k, e), g, p)
  {
    var u := Observed(w, k, e);
    forall i | 0 <= i < |p| ensures WaitsIn(u, g, p[i]) { assert WaitsIn(w, g, p[i]); }
    RowSettling(w, u, k);
    SettlingTraps(w, u, g, p);
  }

  lemma CompletionTrapped(u: World, k: nat, g: nat, p: seq<nat>)
    requires Trapped(u, g, p)
    ensures forall i :: 0 <= i < |p| ==> WaitsIn(CompleteGraph(CompleteCollection(u, k), k), g, p[i])
  {
    CompleteCollectionTrapped(u, k, g, p);
    CompleteGraphTrapped(CompleteCollection(u, k), k, g, p);
  }

  lemma CancelJobTrapped(w: World, k: nat, g: nat, p: seq<nat>)
    requires Trapped(w, g, p) && k !in p
    ensures forall i :: 0 <= i < |p| ==> WaitsIn(CancelJob(w, k), g, p[i])
  {
    var v := CancelRow(w, k);
    forall i | 0 <= i < |p| ensures WaitsIn(v, g, p[i]) { assert WaitsIn(w, g, p[i]) && p[i] in p; }
    CancelRowSettling(w, k);
    SettlingTraps(w, v, g, p);
    CompleteGraphTrapped(v, k, g, p);
  }

  lemma OfferTraps(w: World, s: Step, g: nat, p: seq<nat>)
    requires Trapped(w, g, p) && s.OfferStep?
    ensures Trapped(Apply(w, s), g, p)
  {
    if Apply(w, s) != w {
      forall i | 0 <= i < |p| ensures p[i] != s.j {
        WaitingCycleIsDead(w.jobs, w.graphs[g], p, i);
        assert WaitsIn(w, g, p[i]);
      }
      forall i | 0 <= i < |p| ensures WaitsIn(Apply(w, s), g, p[i]) { assert WaitsIn(w, g, p[i]); }
    }
  }

  /** A submission adds jobs, and at most one group that lists exactly them. */
  ghost predicate AddsGroup(w: World, v: World, ids: seq<nat>, specs: seq<Spec>, group: Group) {
    && NewJobs(w, ids, specs, group) && v.jobs == AddJobs(w.jobs, ids, specs)
    && (forall h :: h in w.graphs ==> h in v.graphs && v.graphs[h] == w.graphs[h])
    && (forall h :: h in v.graphs && h !in w.graphs ==> group == InGraph(h) && v.graphs[h].nodes == ids)
    && (forall c :: c in w.collections ==> c in v.collections && v.collections[c] == w.collections[c])
    && (forall c :: c in v.collections && c !in w.collections ==>
         group == InCollection(c) && v.collections[c].items == ids)
  }

  lemma AddingGrouped(w: World, v: World, ids: seq<nat>, specs: seq<Spec>, group: Group)
    requires Grouped(w) && AddsGroup(w, v, ids, specs, group)
    ensures Grouped(v)
  {
    AddJobsKeeps(w.jobs, ids, specs);
    NewJobsAreNew(w, ids, specs, group);
    forall j | j in ids ensures j in v.jobs && v.jobs[j].spec.group == group {
      var i :| 0 <= i < |ids| && ids[i] == j && v.jobs[j] == Fresh(specs[i]);
    }
  }

  lemma AddingTraps(w: World, v: World, ids: seq<nat>, specs: seq<Spec>, group: Group, g: nat, p: seq<nat>)
    requires Trapped(w, g, p) && AddsGroup(w, v, ids, specs, group)
    ensures Trapped(v, g, p)
  {
    AddingGrouped(w, v, ids, specs, group);
    AddJobsKeeps(w.jobs, ids, specs);
    NewJobsAreNew(w, ids, specs, group);
    forall i | 0 <= i < |p| ensures WaitsIn(v, g, p[i]) { assert WaitsIn(w, g, p[i]); }
  }

  lemma SubmissionTraps(w: World, s: Step, g: nat, p: seq<nat>)
    requires Trapped(w, g, p) && (s.SubmitJobStep? || s.SubmitCollectionStep? || s.SubmitGraphStep?)
    ensures Trapped(Apply(w, s), g, p)
  {
    var v := Apply(w, s);
    if v != w {
      if s.SubmitJobStep? {
        assert AddJobs(w.jobs, [s.id][..0], [s.spec][..0]) == w.jobs;
        AddingTraps(w, v, [s.id], [s.spec], Alone, g, p);
      } else if s.SubmitCollectionStep? {
        AddingTraps(w, v, s.ids, s.specs, InCollection(s.c), g, p);
      } else {
        AddingTraps(w, v, s.ids, s.specs, InGraph(s.g), g, p);
      }
    }
  }

  /** The step cancels a node of the cycle, or its whole graph. */
  ghost predicate CancelsOn(s: Step, g: nat, p: seq<nat>) {
    (s.CancelJobStep? && s.j in p) || (s.CancelGraphStep? && s.g == g)
  }

  lemma UpdateTraps(w: World, s: Step, g: nat, p: seq<nat>)
    requires Trapped(w, g, p) && !Dispatches(s) && !CancelsOn(s, g, p)
    ensures forall i :: 0 <= i < |p| ==> WaitsIn(Apply(w, s), g, p[i])
  {
    if s.RecordStep? {
      RecordTrapped(w, s.j, s.who, s.event, g, p);
    } else if s.CancelJobStep? {
      CancelJobTrapped(w, s.j, g, p);
    } else if s.CancelGraphStep? {
      if s.g in w.graphs { CancelAllTrapped(w, w.graphs[s.g].nodes, g, p); }
    } else {
      forall i | 0 <= i < |p| ensures WaitsIn(Apply(w, s), g, p[i]) { assert WaitsIn(w, g, p[i]); }
    }
  }

  /** Without a cancellation, the nodes of a waiting cycle wait for ever: in no continuation does one of them move. */
  lemma {:induction false} TrappedForever(w: World, steps: seq<Step>, g: nat, p: seq<nat>)
    requires Trapped(w, g, p) && forall s :: s in steps ==> !CancelsOn(s, g, p)
    ensures Trapped(Run(w, steps), g, p)
  {
    if steps != [] {
      var before, last := steps[..|steps| - 1], steps[|steps| - 1];
      TrappedForever(w, before, g, p);
      var v := Run(w, before);
      if last.OfferStep? { OfferTraps(v, last, g, p); }
      else if Dispatches(last) { SubmissionTraps(v, last, g, p); }
      else {
        UpdateTraps(v, last, g, p);
        StepSettling(v, last);
        SettlingTraps(v, Apply(v, last), g, p);
      }
    }
  }
}
