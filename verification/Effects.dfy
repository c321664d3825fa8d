/** What each transaction writes: the rows it changes, their new columns, and nothing else. */
module Effects {
  import opened Base
  import opened Digraphs
  import opened Domain
  import opened Propagation
  import opened ControlPlane
  import opened Invariants
  import opened Preservation
  import opened Rulings
  import Requests = GraphRequests

  // ----- cancellation

  /** b is job a after it was told to stop: waiting work is dropped, an offer is withdrawn, accepted work
      keeps running until its agent ends it, and ended work is left alone. */
  ghost predicate Stopping(a: Job, b: Job) {
    match a.life
    case Waiting => b == Job(a.spec, ToCancel, a.revision + 1, Dropped(Cancelled, None))
    case Offered(d, revision) => b == Job(a.spec, ToCancel, a.revision + 1, Withdrawn(d, revision + 1))
    case Live(_, _, _, _, _) => b == Job(a.spec, ToCancel, a.revision + 1, a.life)
    case _ => b == a
  }

  /** The execution x is live and belongs to one of the jobs. */
  ghost predicate LiveAmong(jobs: Jobs, ids: seq<nat>, x: nat) {
    exists i :: i in ids && i in jobs && jobs[i].life.Live? && jobs[i].life.dispatch.execution == x
  }

  /** Each live execution among ids has an action: a pending one where there was none. */
  ghost predicate Filed(w: World, v: World, ids: seq<nat>) {
    && (forall x :: x in v.actions <==> x in w.actions || LiveAmong(w.jobs, ids, x))
    && (forall x :: x in v.actions ==> v.actions[x] == if x in w.actions then w.actions[x] else Pending)
  }

  /** Exactly the jobs among ids are told to stop. */
  ghost predicate StopsExactly(w: World, v: World, ids: seq<nat>) {
    && v == w.(jobs := v.jobs, actions := v.actions) && v.jobs.Keys == w.jobs.Keys
    && (forall i :: i in w.jobs && i in ids ==> Stopping(w.jobs[i], v.jobs[i]))
    && (forall i :: i in w.jobs && i !in ids ==> v.jobs[i] == w.jobs[i])
    && Filed(w, v, ids)
  }

  lemma LiveAmongMore(jobs: Jobs, ids: seq<nat>, j: nat, x: nat)
    ensures LiveAmong(jobs, ids + [j], x) <==>
      LiveAmong(jobs, ids, x) || (j in jobs && jobs[j].life.Live? && jobs[j].life.dispatch.execution == x)
  {
    assert j in ids + [j];
    if LiveAmong(jobs, ids, x) {
      var i :| i in ids && i in jobs && jobs[i].life.Live? && jobs[i].life.dispatch.execution == x;
      assert i in ids + [j];
    }
  }

  lemma FileOneMore(w: World, u: World, ids: seq<nat>, j: nat)
    requires Filed(w, u, ids) && u.jobs.Keys == w.jobs.Keys && (j in w.jobs ==> u.jobs[j] == w.jobs[j])
    ensures Filed(w, CancelRow(u, j), ids + [j])
  {
    var v := CancelRow(u, j);
    forall x ensures x in v.actions <==> x in w.actions || LiveAmong(w.jobs, ids + [j], x) {
      LiveAmongMore(w.jobs, ids, j, x);
    }
  }

  lemma StopOneMore(w: World, u: World, ids: seq<nat>, j: nat)
    requires StopsExactly(w, u, ids) && j !in ids
    ensures StopsExactly(w, CancelRow(u, j), ids + [j])
  {
    FileOneMore(w, u, ids, j);
    var v := CancelRow(u, j);
    forall i | i in w.jobs
      ensures if i in ids + [j] then Stopping(w.jobs[i], v.jobs[i]) else v.jobs[i] == w.jobs[i]
    {
      assert i in ids + [j] <==> i in ids || i == j;
    }
  }

  lemma {:induction false} CancelAllMeans(w: World, ids: seq<nat>)
    requires Distinct(ids)
    ensures StopsExactly(w, CancelAll(w, ids), ids)
  {
    if ids != [] {
      var front, last := ids[..|ids| - 1], ids[|ids| - 1];
      CancelAllMeans(w, front);
      StopOneMore(w, CancelAll(w, front), front, last);
      assert front + [last] == ids;
    }
  }

  /** Cancelling a graph tells every unfinished node to stop and no other job, and raises the graph's revision. */
  lemma CancelGraphMeans(w: World, g: nat)
    requires Linked(w) && g in w.graphs
    ensures var v := CancelGraph(w, g);
      && StopsExactly(w, v.(graphs := w.graphs), w.graphs[g].nodes)
      && v.graphs == w.graphs[g := w.graphs[g].(revision := w.graphs[g].revision + 1)]
  {
    assert GraphLinked(w, g);
    CancelAllMeans(w, w.graphs[g].nodes);
  }

  /** A waiting node of the graph that was disposed of by its policy. */
  ghost predicate GivenUp(a: Job, b: Job, g: nat) {
    && a.spec.group == InGraph(g) && a.life.Waiting? && b.life.Dropped? && b.life.disposition.Some?
    && b == Job(a.spec, b.desire, a.revision + 1, b.life)
  }

  /** Completing a node changes, besides its graph's revision, only waiting nodes of that graph that are given up. */
  ghost predicate CompletesGraph(w: World, v: World, j: nat)
    requires j in w.jobs
  {
    match w.jobs[j].spec.group
    case InGraph(g) =>
      && g in w.graphs && v == w.(jobs := v.jobs, graphs := v.graphs) && v.jobs.Keys == w.jobs.Keys
      && v.graphs == w.graphs[g := w.graphs[g].(revision := w.graphs[g].revision + 1)]
      && (forall i :: i in w.jobs ==> v.jobs[i] == w.jobs[i] || GivenUp(w.jobs[i], v.jobs[i], g))
      && Settled(v.jobs, v.graphs[g])
    case _ => v == w
  }

  lemma PropagateGivesUp(w: World, g: nat, i: nat)
    requires Linked(w) && g in w.graphs && i in w.jobs
    ensures var after := Propagate(w.jobs, w.graphs[g]);
      i in after && (after[i] == w.jobs[i] || GivenUp(w.jobs[i], after[i], g))
  {
    assert GraphLinked(w, g);
    PropagateEffect(w.jobs, w.graphs[g]);
    assert DisposedRightly(w.jobs, Propagate(w.jobs, w.graphs[g]), w.graphs[g], i);
  }

  lemma CompleteGraphMeans(w: World, j: nat)
    requires Linked(w) && j in w.jobs
    ensures CompletesGraph(w, CompleteGraph(w, j), j)
  {
    assert GroupOk(w, j);
    if w.jobs[j].spec.group.InGraph? {
      var g := w.jobs[j].spec.group.graph;
      PropagateEffect(w.jobs, w.graphs[g]);
      OwnGraphSettles(w, j, g);
      forall i | i in w.jobs
        ensures var b := Propagate(w.jobs, w.graphs[g])[i]; b == w.jobs[i] || GivenUp(w.jobs[i], b, g)
      {
        PropagateGivesUp(w, g, i);
      }
    }
  }

  lemma CancelRowMeans(w: World, j: nat)
    ensures StopsExactly(w, CancelRow(w, j), [j])
  {
    assert Distinct([j]);
    assert [j][..0] == [];
    assert CancelAll(w, [j]) == CancelRow(w, j);
    CancelAllMeans(w, [j]);
  }

  /** Cancelling a job stops it and, when that ends it, completes it in its graph; a job that has ended or
      was told to stop before is left alone. */
  lemma CancelJobMeans(w: World, j: nat)
    requires Linked(w) && j in w.jobs
    ensures var v := CancelJob(w, j);
      if Terminal(w.jobs[j].life) || w.jobs[j].desire == ToCancel then v == w
      else exists u :: StopsExactly(w, u, [j]) && if w.jobs[j].life.Live? then v == u else CompletesGraph(u, v, j)
  {
    if !Terminal(w.jobs[j].life) && w.jobs[j].desire != ToCancel {
      var u := CancelRow(w, j);
      CancelRowMeans(w, j);
      assert j in [j] && Stopping(w.jobs[j], u.jobs[j]);
      CancelRowSettling(w, j);
      SettlingLinked(w, u);
      CompleteGraphMeans(u, j);
    }
  }

  // ----- events

  /** An observation that completes nothing rewrites its own job: one event, one revision more, and
      running from the first event that shows so. */
  lemma ObservationMeans(w: World, j: nat, who: Identity, e: Event)
    requires Record(w, j, who, e).1 == Ok(false) && !e.kind.ProcessCompleted? && !e.kind.SchedulerCompleted?
    ensures j in w.jobs && w.jobs[j].life.Live?
    ensures var job := w.jobs[j]; var life := job.life;
      Record(w, j, who, e).0 == w.(jobs := w.jobs[j := Job(job.spec, job.desire, job.revision + 1,
        Live(life.dispatch, life.acceptance, life.running || e.kind.ProcessStarted? || e.running, life.revision + 1,
             life.events + [e]))])
  {
  }

  /** The world after a completion event ended job j, before its group was told. */
  ghost predicate EndedBy(w: World, u: World, j: nat, e: Event)
    requires j in w.jobs && w.jobs[j].life.Live?
  {
    var job := w.jobs[j];
    u == w.(jobs := w.jobs[j := Job(job.spec, job.desire, job.revision + 1,
      Ended(job.life.dispatch, job.life.acceptance, e.outcome, job.life.revision + 1, job.life.events + [e]))])
  }

  /** v is u after the group of job j heard that the job ended with the outcome. A graph gives up the nodes
      that can no longer run. A collection stops all its unfinished items if it fails fast and the outcome
      is no success, and otherwise only its revision changes. */
  ghost predicate GroupTold(u: World, v: World, j: nat, outcome: Outcome)
    requires j in u.jobs
  {
    match u.jobs[j].spec.group
    case Alone => v == u
    case InGraph(_) => CompletesGraph(u, v, j)
    case InCollection(c) =>
      && c in u.collections
      && v.collections == u.collections[c := u.collections[c].(revision := u.collections[c].revision + 1)]
      && if u.collections[c].failFast && outcome != Success
         then StopsExactly(u, v.(collections := u.collections), u.collections[c].items)
         else v.(collections := u.collections) == u
  }

  lemma StopSiblingsMeans(u: World, j: nat, c: nat)
    requires Linked(u) && j in u.jobs && c in u.collections && u.jobs[j].life.Ended?
    ensures var v := StopSiblings(u, j, c);
      if u.collections[c].failFast && u.jobs[j].life.outcome != Success
      then StopsExactly(u, v, u.collections[c].items) else v == u
  {
    assert CollectionLinked(u, c);
    CancelAllMeans(u, u.collections[c].items);
  }

  /** What follows in a collection leaves graphs alone. */
  lemma CollectionIsNoGraph(u: World, j: nat, c: nat)
    requires j in u.jobs && u.jobs[j].spec.group == InCollection(c)
    ensures CompleteGraph(CompleteCollection(u, j), j) == CompleteCollection(u, j)
  {
    CompleteCollectionSettling(u, j);
    assert Quiet(u.jobs[j], CompleteCollection(u, j).jobs[j]);
  }

  lemma CollectionCompletes(u: World, j: nat, c: nat)
    requires Linked(u) && j in u.jobs && u.jobs[j].spec.group == InCollection(c) && u.jobs[j].life.Ended?
    ensures GroupTold(u, CompleteGraph(CompleteCollection(u, j), j), j, u.jobs[j].life.outcome)
  {
    assert GroupOk(u, j);
    StopSiblingsMeans(u, j, c);
    CollectionIsNoGraph(u, j, c);
    var v := CompleteCollection(u, j);
    assert v.(collections := u.collections) == StopSiblings(u, j, c);
  }

  lemma EndedIsTold(u: World, j: nat)
    requires Linked(u) && j in u.jobs && u.jobs[j].life.Ended?
    ensures GroupTold(u, CompleteGraph(CompleteCollection(u, j), j), j, u.jobs[j].life.outcome)
  {
    match u.jobs[j].spec.group
    case Alone =>
    case InGraph(_) => CompleteGraphMeans(u, j);
    case InCollection(c) => CollectionCompletes(u, j, c);
  }

  /** A completion ends its execution with the reported outcome and tells its group. */
  lemma CompletionMeans(w: World, j: nat, who: Identity, e: Event)
    requires Linked(w) && Record(w, j, who, e).1 == Ok(false)
    requires (e.kind.ProcessCompleted? || e.kind.SchedulerCompleted?)
    ensures j in w.jobs && w.jobs[j].life.Live?
    ensures var v := Record(w, j, who, e).0;
      exists u :: EndedBy(w, u, j, e) && GroupTold(u, v, j, e.outcome)
  {
    var u := Observed(w, j, e);
    assert EndedBy(w, u, j, e);
    RowSettling(w, u, j);
    SettlingLinked(w, u);
    EndedIsTold(u, j);
  }

  // ----- observations that change no phase

  /** Only the agent that holds the execution can acknowledge its cancel action, and that is all it changes. */
  lemma AcknowledgeMeans(w: World, j: nat, who: Identity)
    ensures var v := Acknowledge(w, j, who);
      && v == w.(actions := v.actions) && v.actions.Keys == w.actions.Keys
      && forall x :: x in w.actions ==>
           v.actions[x] == (if Owns(w, j, who, who.agent) && x == w.jobs[j].life.dispatch.execution
                            then Acknowledged else w.actions[x])
  {
  }

  /** A stale mark is a new revision of a live execution and its job, and nothing else. */
  lemma MarkStaleMeans(w: World, j: nat)
    ensures var v := MarkStale(w, j);
      && v == w.(jobs := v.jobs) && v.jobs.Keys == w.jobs.Keys
      && (forall i :: i in w.jobs && !(i == j && w.jobs[i].life.Live?) ==> v.jobs[i] == w.jobs[i])
      && (j in w.jobs && w.jobs[j].life.Live? ==>
           && v.jobs[j] == w.jobs[j].(revision := w.jobs[j].revision + 1, life := v.jobs[j].life)
           && v.jobs[j].life.Live? && v.jobs[j].life.revision == w.jobs[j].life.revision + 1
           && Unversioned(v.jobs[j].life) == Unversioned(w.jobs[j].life))
  {
  }

  // ----- submission

  /** The ids are new and distinct, and every job names a known namespace and the group it is submitted in. */
  ghost predicate Submittable(w: World, ids: seq<nat>, specs: seq<Spec>, group: Group) {
    && |ids| == |specs|
    && (forall i, j :: 0 <= i < j < |ids| ==> ids[i] != ids[j])
    && (forall i :: 0 <= i < |ids| ==> ids[i] !in w.jobs)
    && (forall i :: 0 <= i < |specs| ==> specs[i].group == group && specs[i].namespace in w.namespaces)
  }

  /** The submitted jobs were added, all waiting, wanted and at their first revision. */
  ghost predicate Submitted(w: World, v: World, ids: seq<nat>, specs: seq<Spec>) {
    && |ids| == |specs|
    && (forall i :: i in v.jobs <==> i in w.jobs || i in ids)
    && (forall i :: i in w.jobs ==> i in v.jobs && v.jobs[i] == w.jobs[i])
    && (forall k :: 0 <= k < |ids| ==> ids[k] in v.jobs && v.jobs[ids[k]] == Job(specs[k], ToRun, 1, Waiting))
  }

  lemma AddedAreSubmitted(w: World, v: World, ids: seq<nat>, specs: seq<Spec>)
    requires |ids| == |specs| && v.jobs == AddJobs(w.jobs, ids, specs)
    requires forall i, j :: 0 <= i < j < |ids| ==> ids[i] != ids[j]
    requires forall i :: 0 <= i < |ids| ==> ids[i] !in w.jobs
    ensures Submitted(w, v, ids, specs)
  {
    AddJobsKeeps(w.jobs, ids, specs);
    forall k | 0 <= k < |ids| ensures v.jobs[ids[k]] == Fresh(specs[k]) {
      var i :| 0 <= i < |ids| && ids[i] == ids[k] && v.jobs[ids[k]] == Fresh(specs[i]);
    }
  }

  lemma SubmitJobMeans(w: World, id: nat, spec: Spec)
    ensures var v := SubmitJob(w, id, spec);
      if Submittable(w, [id], [spec], Alone) then Submitted(w, v, [id], [spec]) && v == w.(jobs := v.jobs) else v == w
  {
    assert [id][0] == id && [spec][0] == spec;
    assert NewJobs(w, [id], [spec], Alone) <==> Submittable(w, [id], [spec], Alone);
  }

  /** A collection is stored whole, or not at all. */
  lemma SubmitCollectionMeans(w: World, c: nat, ids: seq<nat>, specs: seq<Spec>, maxActive: nat, failFast: bool,
      slurmArray: bool)
    ensures var v := SubmitCollection(w, c, ids, specs, maxActive, failFast, slurmArray);
      if c !in w.collections && 1 <= maxActive <= |ids| && Submittable(w, ids, specs, InCollection(c)) then
        && Submitted(w, v, ids, specs) && v == w.(jobs := v.jobs, collections := v.collections)
        && v.collections == w.collections[c := Collection(ids, maxActive, failFast, slurmArray, 1)]
      else v == w
  {
    assert NewJobs(w, ids, specs, InCollection(c)) <==> Submittable(w, ids, specs, InCollection(c));
    if NewJobs(w, ids, specs, InCollection(c)) {
      AddedAreSubmitted(w, w.(jobs := AddJobs(w.jobs, ids, specs)), ids, specs);
    }
  }

  /** So is a graph, from a request the decoder admits. */
  lemma SubmitGraphMeans(w: World, g: nat, r: Requests.Request, ids: seq<nat>, specs: seq<Spec>)
    ensures var v := SubmitGraph(w, g, r, ids, specs);
      if g !in w.graphs && Requests.Admissible(r) && |ids| == |r.nodes| && Submittable(w, ids, specs, InGraph(g)) then
        && Submitted(w, v, ids, specs) && v == w.(jobs := v.jobs, graphs := v.graphs)
        && v.graphs.Keys == w.graphs.Keys + {g} && (forall h :: h in w.graphs ==> v.graphs[h] == w.graphs[h])
        && v.graphs[g].nodes == ids && v.graphs[g].maxActive == r.maxActive && v.graphs[g].revision == 1
        && |v.graphs[g].edges| == |r.edges|
      else v == w
  {
    assert NewJobs(w, ids, specs, InGraph(g)) <==> Submittable(w, ids, specs, InGraph(g));
    if NewJobs(w, ids, specs, InGraph(g)) {
      AddedAreSubmitted(w, w.(jobs := AddJobs(w.jobs, ids, specs)), ids, specs);
    }
  }
}
