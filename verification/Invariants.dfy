/** What every transaction of the control plane keeps. */
module Invariants {
  import opened Base
  import opened Domain
  import opened Propagation
  import opened ControlPlane
  import opened Digraphs
  import Logs = LogAssembly
  import Requests = GraphRequests

  // ----- how a single job may change

  ghost predicate SameAuthorization(a: Life, b: Life) {
    Authorized(a) ==>
      && Authorized(b) && b.dispatch == a.dispatch && b.acceptance == a.acceptance
      && a.revision <= b.revision && a.events <= b.events
  }

  /** b is a as it may be found later: it never moves backwards, a terminal job never changes at all, and
      what was offered or accepted stays offered or accepted in the same terms. */
  ghost predicate Later(a: Job, b: Job) {
    && b.spec == a.spec && a.revision <= b.revision
    && (a.desire == ToCancel && !a.life.Waiting? ==> b.desire == ToCancel)
    && Rank(a.life) <= Rank(b.life)
    && (Terminal(a.life) ==> b == a)
    && (Dispatched(a.life) ==> Dispatched(b.life) && b.life.dispatch == a.life.dispatch)
    && SameAuthorization(a.life, b.life)
  }

  lemma LaterIsTransitive(a: Job, b: Job, c: Job)
    requires Later(a, b) && Later(b, c)
    ensures Later(a, c)
  {
  }

  ghost predicate SameGraph(a: Graph, b: Graph) {
    b == a.(revision := b.revision)
  }

  ghost predicate SameCollection(a: Collection, b: Collection) {
    b == a.(revision := b.revision)
  }

  /** Every job of w is still there, in a later state; groups keep their members and limits; actions stay filed. */
  ghost predicate Onward(w: World, v: World) {
    && (forall j :: j in w.jobs ==> j in v.jobs && Later(w.jobs[j], v.jobs[j]))
    && (forall g :: g in w.graphs ==> g in v.graphs && SameGraph(w.graphs[g], v.graphs[g]))
    && (forall c :: c in w.collections ==> c in v.collections && SameCollection(w.collections[c], v.collections[c]))
    && w.actions.Keys <= v.actions.Keys
  }

  lemma OnwardIsTransitive(u: World, v: World, w: World)
    requires Onward(u, v) && Onward(v, w)
    ensures Onward(u, w)
  {
    forall j | j in u.jobs ensures j in w.jobs && Later(u.jobs[j], w.jobs[j]) {
      LaterIsTransitive(u.jobs[j], v.jobs[j], w.jobs[j]);
    }
  }

  /** Onward, and nothing newly dispatched. */
  ghost predicate Quiet(a: Job, b: Job) {
    Later(a, b) && (Dispatched(b.life) ==> Dispatched(a.life))
  }

  /** A transaction that submits and dispatches nothing: the same jobs, each quietly moved, in the same groups. */
  ghost predicate Settling(w: World, v: World) {
    && v.jobs.Keys == w.jobs.Keys && (forall j :: j in w.jobs ==> Quiet(w.jobs[j], v.jobs[j]))
    && v.graphs.Keys == w.graphs.Keys && (forall g :: g in w.graphs ==> SameGraph(w.graphs[g], v.graphs[g]))
    && v.collections.Keys == w.collections.Keys
         && (forall c :: c in w.collections ==> SameCollection(w.collections[c], v.collections[c]))
    && v.namespaces == w.namespaces && w.actions.Keys <= v.actions.Keys
  }

  lemma SettlingIsTransitive(u: World, v: World, w: World)
    requires Settling(u, v) && Settling(v, w)
    ensures Settling(u, w)
  {
    forall j | j in u.jobs ensures Quiet(u.jobs[j], w.jobs[j]) {
      LaterIsTransitive(u.jobs[j], v.jobs[j], w.jobs[j]);
    }
  }

  lemma SettlingIsOnward(w: World, v: World)
    requires Settling(w, v)
    ensures Onward(w, v)
  {
  }

  /** Rewriting a single job quietly. */
  lemma RowSettling(w: World, v: World, j: nat)
    requires j in w.jobs && j in v.jobs && v.jobs == w.jobs[j := v.jobs[j]] && Quiet(w.jobs[j], v.jobs[j])
    requires v.graphs == w.graphs && v.collections == w.collections && v.namespaces == w.namespaces
    requires w.actions.Keys <= v.actions.Keys
    ensures Settling(w, v)
  {
  }

  lemma CancelRowSettling(w: World, j: nat)
    ensures Settling(w, CancelRow(w, j))
    ensures CancelRow(w, j) == w.(jobs := CancelRow(w, j).jobs, actions := CancelRow(w, j).actions)
  {
    if CancelRow(w, j) != w { RowSettling(w, CancelRow(w, j), j); }
  }

  lemma {:induction false} CancelAllSettling(w: World, ids: seq<nat>)
    ensures Settling(w, CancelAll(w, ids))
    ensures CancelAll(w, ids) == w.(jobs := CancelAll(w, ids).jobs, actions := CancelAll(w, ids).actions)
  {
    if ids != [] {
      var before := CancelAll(w, ids[..|ids| - 1]);
      CancelAllSettling(w, ids[..|ids| - 1]);
      CancelRowSettling(before, ids[|ids| - 1]);
      SettlingIsTransitive(w, before, CancelAll(w, ids));
    }
  }

  lemma PropagateQuiet(jobs: Jobs, g: Graph)
    ensures Propagate(jobs, g).Keys == jobs.Keys && forall j :: j in jobs ==> Quiet(jobs[j], Propagate(jobs, g)[j])
  {
    PropagateEffect(jobs, g);
    forall k | k in jobs ensures Quiet(jobs[k], Propagate(jobs, g)[k]) {
      assert DisposedRightly(jobs, Propagate(jobs, g), g, k);
    }
  }

  lemma CompleteGraphSettling(w: World, j: nat)
    ensures Settling(w, CompleteGraph(w, j))
  {
    if j in w.jobs && w.jobs[j].spec.group.InGraph? && w.jobs[j].spec.group.graph in w.graphs {
      PropagateQuiet(w.jobs, w.graphs[w.jobs[j].spec.group.graph]);
    }
  }

  lemma RevisionSettling(w: World, v: World, c: nat, revision: nat)
    requires Settling(w, v) && c in w.collections
    ensures Settling(w, v.(collections := v.collections[c := w.collections[c].(revision := revision)]))
  {
  }

  lemma StopSiblingsSettling(w: World, j: nat, c: nat)
    requires j in w.jobs && c in w.collections
    ensures Settling(w, StopSiblings(w, j, c))
  {
    SameJobsSettling(w, w);
    CancelAllSettling(w, w.collections[c].items);
  }

  lemma CompleteCollectionSettling(w: World, j: nat)
    ensures Settling(w, CompleteCollection(w, j))
  {
    if j in w.jobs && w.jobs[j].spec.group.InCollection? && w.jobs[j].spec.group.collection in w.collections {
      var c := w.jobs[j].spec.group.collection;
      StopSiblingsSettling(w, j, c);
      RevisionSettling(w, StopSiblings(w, j, c), c, w.collections[c].revision + 1);
    } else {
      SameJobsSettling(w, w);
    }
  }

  lemma CompletionSettling(w: World, j: nat)
    ensures Settling(w, CompleteGraph(CompleteCollection(w, j), j))
  {
    CompleteCollectionSettling(w, j);
    CompleteGraphSettling(CompleteCollection(w, j), j);
    SettlingIsTransitive(w, CompleteCollection(w, j), CompleteGraph(CompleteCollection(w, j), j));
  }

  /** The world right after an event is applied, before any completion work. */
  ghost function Observed(w: World, j: nat, e: Event): World
    requires j in w.jobs && w.jobs[j].life.Live?
  {
    w.(jobs := w.jobs[j := w.jobs[j].(revision := w.jobs[j].revision + 1, life := Observe(w.jobs[j].life, e))])
  }

  /** A recorded event either changes nothing or is applied and, if it completes the execution, followed up. */
  lemma RecordCases(w: World, j: nat, who: Identity, e: Event)
    ensures var (v, reply) := Record(w, j, who, e);
      || v == w
      || (&& reply == Ok(false) && j in w.jobs && Admits(w, j, e)
          && v == if IsCompletion(e.kind)
               then CompleteGraph(CompleteCollection(Observed(w, j, e), j), j) else Observed(w, j, e))
  {
  }

  lemma RecordSettling(w: World, j: nat, who: Identity, e: Event)
    ensures Settling(w, Record(w, j, who, e).0)
  {
    var v := Record(w, j, who, e).0;
    RecordCases(w, j, who, e);
    if v != w {
      RowSettling(w, Observed(w, j, e), j);
      CompletionSettling(Observed(w, j, e), j);
      if IsCompletion(e.kind) { SettlingIsTransitive(w, Observed(w, j, e), v); }
    }
  }

  lemma CancelJobSettling(w: World, j: nat)
    ensures Settling(w, CancelJob(w, j))
  {
    if j in w.jobs && !Terminal(w.jobs[j].life) && w.jobs[j].desire != ToCancel {
      var v := CancelRow(w, j);
      CancelRowSettling(w, j);
      CompleteGraphSettling(v, j);
      SettlingIsTransitive(w, v, CompleteGraph(v, j));
    }
  }

  lemma CancelGraphSettling(w: World, g: nat)
    ensures Settling(w, CancelGraph(w, g))
  {
    if g in w.graphs { CancelAllSettling(w, w.graphs[g].nodes); }
  }

  lemma AcceptSettling(w: World, j: nat, who: Identity, a: AcceptanceRequest, now: nat)
    ensures Settling(w, Accept(w, j, who, a, now).0)
  {
    if j in w.jobs { RowSettling(w, Accept(w, j, who, a, now).0, j); }
  }

  lemma MarkStaleSettling(w: World, j: nat)
    ensures Settling(w, MarkStale(w, j))
  {
    if j in w.jobs { RowSettling(w, MarkStale(w, j), j); }
  }

  lemma SameJobsSettling(w: World, v: World)
    requires v.jobs == w.jobs && v.graphs == w.graphs && v.collections == w.collections && v.namespaces == w.namespaces
    requires w.actions.Keys <= v.actions.Keys
    ensures Settling(w, v)
  {
  }

  predicate Dispatches(s: Step) {
    s.OfferStep? || s.SubmitJobStep? || s.SubmitCollectionStep? || s.SubmitGraphStep?
  }

  lemma AcknowledgeSettling(w: World, j: nat, who: Identity)
    ensures Settling(w, Acknowledge(w, j, who))
  {
    SameJobsSettling(w, Acknowledge(w, j, who));
  }

  lemma CommitLogSettling(w: World, j: nat, agent: nat, store: string, version: Logs.Int64, prefix: string,
      c: Logs.Chunk)
    ensures Settling(w, CommitLog(w, j, agent, store, version, prefix, c))
  {
    SameJobsSettling(w, CommitLog(w, j, agent, store, version, prefix, c));
  }

  lemma StepSettling(w: World, s: Step)
    requires !Dispatches(s)
    ensures Settling(w, Apply(w, s))
  {
    match s
    case RecordStep(j, who, e) => RecordSettling(w, j, who, e);
    case CancelJobStep(j) => CancelJobSettling(w, j);
    case CancelGraphStep(g) => CancelGraphSettling(w, g);
    case AcceptStep(j, who, a, now) => AcceptSettling(w, j, who, a, now);
    case MarkStaleStep(j) => MarkStaleSettling(w, j);
    case AcknowledgeStep(j, who) => AcknowledgeSettling(w, j, who);
    case CommitLogStep(j, agent, store, version, prefix, c) =>
      CommitLogSettling(w, j, agent, store, version, prefix, c);
  }

  lemma {:induction false} AddJobsKeeps(jobs: Jobs, ids: seq<nat>, specs: seq<Spec>)
    requires |ids| == |specs|
    ensures AddJobs(jobs, ids, specs).Keys == jobs.Keys + set j | j in ids
    ensures forall j :: j in jobs && j !in ids ==> AddJobs(jobs, ids, specs)[j] == jobs[j]
    ensures forall j :: j in ids ==>
      exists i :: 0 <= i < |ids| && ids[i] == j && AddJobs(jobs, ids, specs)[j] == Fresh(specs[i])
  {
    if ids != [] {
      var n := |ids| - 1;
      AddJobsKeeps(jobs, ids[..n], specs[..n]);
      forall j | j in ids
        ensures exists i :: 0 <= i < |ids| && ids[i] == j && AddJobs(jobs, ids, specs)[j] == Fresh(specs[i])
      {
        if j == ids[n] { assert AddJobs(jobs, ids, specs)[j] == Fresh(specs[n]); }
        else {
          assert j in ids[..n];
          var i :| 0 <= i < n && ids[..n][i] == j && AddJobs(jobs, ids[..n], specs[..n])[j] == Fresh(specs[..n][i]);
          assert ids[i] == j && AddJobs(jobs, ids, specs)[j] == Fresh(specs[i]);
        }
      }
    }
  }

  lemma NewJobsAreNew(w: World, ids: seq<nat>, specs: seq<Spec>, group: Group)
    requires NewJobs(w, ids, specs, group)
    ensures forall j :: j in w.jobs ==> j !in ids
  {
  }

  lemma AddJobsOnward(w: World, v: World, ids: seq<nat>, specs: seq<Spec>, group: Group)
    requires NewJobs(w, ids, specs, group) && v.jobs == AddJobs(w.jobs, ids, specs) && v.actions == w.actions
    requires forall g :: g in w.graphs ==> g in v.graphs && v.graphs[g] == w.graphs[g]
    requires forall c :: c in w.collections ==> c in v.collections && v.collections[c] == w.collections[c]
    ensures Onward(w, v)
  {
    NewJobsAreNew(w, ids, specs, group);
    AddJobsKeeps(w.jobs, ids, specs);
  }

  lemma SubmitJobOnward(w: World, id: nat, spec: Spec)
    ensures Onward(w, SubmitJob(w, id, spec))
  {
    if NewJobs(w, [id], [spec], Alone) { assert [id][0] !in w.jobs; }
  }

  lemma SubmitCollectionOnward(w: World, c: nat, ids: seq<nat>, specs: seq<Spec>, maxActive: nat, failFast: bool,
      slurmArray: bool)
    ensures Onward(w, SubmitCollection(w, c, ids, specs, maxActive, failFast, slurmArray))
  {
    var v := SubmitCollection(w, c, ids, specs, maxActive, failFast, slurmArray);
    if v != w { AddJobsOnward(w, v, ids, specs, InCollection(c)); }
  }

  lemma SubmitGraphOnward(w: World, g: nat, r: Requests.Request, ids: seq<nat>, specs: seq<Spec>)
    ensures Onward(w, SubmitGraph(w, g, r, ids, specs))
  {
    var v := SubmitGraph(w, g, r, ids, specs);
    if v != w { AddJobsOnward(w, v, ids, specs, InGraph(g)); }
  }

  lemma SubmissionOnward(w: World, s: Step)
    requires s.SubmitJobStep? || s.SubmitCollectionStep? || s.SubmitGraphStep?
    ensures Onward(w, Apply(w, s))
  {
    match s
    case SubmitJobStep(id, spec) => SubmitJobOnward(w, id, spec);
    case SubmitCollectionStep(c, ids, specs, maxActive, failFast, slurmArray) =>
      SubmitCollectionOnward(w, c, ids, specs, maxActive, failFast, slurmArray);
    case SubmitGraphStep(g, r, ids, specs) => SubmitGraphOnward(w, g, r, ids, specs);
  }

  lemma OfferOnward(w: World, env: Surroundings, j: nat, run: nat, execution: nat, delivery: nat, digest: nat, now: nat)
    ensures Onward(w, Offer(w, env, j, run, execution, delivery, digest, now))
  {
  }

  /** Every transaction moves every job only onward. */
  lemma StepOnward(w: World, s: Step)
    ensures Onward(w, Apply(w, s))
  {
    if s.OfferStep? { OfferOnward(w, s.env, s.j, s.run, s.execution, s.delivery, s.digest, s.now); }
    else if Dispatches(s) { SubmissionOnward(w, s); }
    else { StepSettling(w, s); SettlingIsOnward(w, Apply(w, s)); }
  }

  /** From any point of any run, everything that follows moves every job only onward. */
  lemma {:induction false} RunOnward(w: World, steps: seq<Step>, more: seq<Step>)
    ensures Onward(Run(w, steps), Run(w, steps + more))
  {
    if more == [] {
      assert steps + more == steps;
    } else {
      var all := steps + more;
      assert all[..|all| - 1] == steps + more[..|more| - 1] && all[|all| - 1] == more[|more| - 1];
      RunOnward(w, steps, more[..|more| - 1]);
      StepOnward(Run(w, steps + more[..|more| - 1]), more[|more| - 1]);
      OnwardIsTransitive(Run(w, steps), Run(w, all[..|all| - 1]), Run(w, all));
    }
  }

  // ----- per-job facts

  ghost function Unversioned(life: Life): Life {
    match life
    case Live(d, a, running, _, events) => Live(d, a, running, 0, events)
    case Ended(d, a, outcome, _, events) => Ended(d, a, outcome, 0, events)
    case _ => life
  }

  /** One in-order application of events to a freshly accepted execution. */
  ghost function Replay(d: Dispatch, a: Acceptance, events: seq<Event>): Life {
    if events == [] then Live(d, a, false, 0, []) else
      var before := Replay(d, a, events[..|events| - 1]);
      if before.Live? then Observe(before, events[|events| - 1]) else before
  }

  /** Stored sequences are 1, 2, ..., in order. */
  ghost predicate Numbered(events: seq<Event>) {
    forall i :: 0 <= i < |events| ==> events[i].sequence == i + 1
  }

  ghost predicate LifeOk(life: Life, desire: Desire) {
    match life
    case Waiting => desire == ToRun
    case Offered(_, _) => desire == ToRun
    case Withdrawn(_, _) => desire == ToCancel
    case Dropped(o, None) => o == Cancelled && desire == ToCancel
    case Dropped(o, Some(CancelledByPolicy)) => o == Cancelled && desire == ToCancel
    case Dropped(o, Some(_)) => o == Aborted && desire == ToRun
    case _ =>
      && Numbered(life.events)
      && Unversioned(life) == Unversioned(Replay(life.dispatch, life.acceptance, life.events))
  }

  ghost predicate JobOk(job: Job) {
    LifeOk(job.life, job.desire)
  }

  lemma ObserveUnversioned(a: Life, b: Life, e: Event)
    requires a.Live? && b.Live? && Unversioned(a) == Unversioned(b)
    ensures Unversioned(Observe(a, e)) == Unversioned(Observe(b, e))
  {
  }

  /** Applying the next event in sequence extends the replay by that event. */
  lemma ObserveOk(life: Life, desire: Desire, e: Event)
    requires life.Live? && LifeOk(life, desire) && e.sequence == |life.events| + 1
    ensures LifeOk(Observe(life, e), desire)
  {
    var more := life.events + [e];
    var before := Replay(life.dispatch, life.acceptance, life.events);
    assert more[..|more| - 1] == life.events && more[|more| - 1] == e;
    assert before.Live? && Unversioned(before) == Unversioned(life);
    ObserveUnversioned(life, before, e);
  }

  lemma CancelOneOk(job: Job)
    requires JobOk(job)
    ensures JobOk(CancelOne(job))
  {
  }

  lemma DisposedOk(policy: Policy, job: Job)
    ensures JobOk(Disposed(policy, job))
  {
  }

  // ----- graphs

  ghost predicate Edges(g: Graph) {
    forall e :: e in g.edges ==> e.upstream in g.nodes && e.downstream in g.nodes
  }

  /** Dispatched nodes have every incoming edge satisfied, and no more are active than allowed. */
  ghost predicate GraphSafe(jobs: Jobs, g: Graph) {
    && Edges(g) && (forall j :: j in g.nodes ==> j in jobs)
    && (forall e :: e in g.edges && Dispatched(jobs[e.downstream].life) ==> Satisfied(jobs, e))
    && |ActiveAmong(jobs, g.nodes)| <= g.maxActive
  }

  lemma QuietKeepsGraph(jobs: Jobs, after: Jobs, g: Graph)
    requires GraphSafe(jobs, g)
    requires forall j :: j in g.nodes ==> j in after && Quiet(jobs[j], after[j])
    ensures GraphSafe(after, g)
  {
    forall e | e in g.edges && Dispatched(after[e.downstream].life) ensures Satisfied(after, e) {
      assert e.upstream in g.nodes && Satisfied(jobs, e);
    }
    assert ActiveAmong(after, g.nodes) <= ActiveAmong(jobs, g.nodes);
    SubsetSize(ActiveAmong(after, g.nodes), ActiveAmong(jobs, g.nodes));
  }

  /** Nothing that could make a node stuck: no new waiting node, and the same ones ended as they did. */
  ghost predicate SameStanding(a: Life, b: Life) {
    (b.Waiting? ==> a.Waiting?) && Terminal(a) == Terminal(b) && OutcomeOf(a) == OutcomeOf(b)
  }

  lemma StandingKeepsSettled(jobs: Jobs, after: Jobs, g: Graph)
    requires Edges(g) && Settled(jobs, g)
    requires forall j :: j in g.nodes ==> j in jobs && j in after && SameStanding(jobs[j].life, after[j].life)
    ensures Settled(after, g)
  {
    forall j | j in g.nodes ensures !Stuck(after, g, j) {
      forall e | e in g.edges && e.downstream == j
        ensures (Finished(after, e) <==> Finished(jobs, e)) && (Satisfied(after, e) <==> Satisfied(jobs, e))
      {
        assert e.upstream in g.nodes;
      }
      assert !Stuck(jobs, g, j);
    }
  }

  lemma NoneWaitingIsSettled(jobs: Jobs, g: Graph)
    requires forall j :: j in g.nodes && j in jobs ==> !jobs[j].life.Waiting?
    ensures Settled(jobs, g)
  {
  }

  // ----- collections

  ghost predicate CollectionSafe(jobs: Jobs, c: Collection) {
    && (forall j :: j in c.items ==> j in jobs)
    && (!c.slurmArray ==> |ActiveAmong(jobs, c.items)| <= c.maxActive)
    && (c.slurmArray ==>
         forall i, j :: i in c.items && j in c.items && Dispatched(jobs[i].life) && Dispatched(jobs[j].life) ==>
      jobs[i].life.dispatch.agent == jobs[j].life.dispatch.agent)
  }

  lemma QuietKeepsCollection(jobs: Jobs, after: Jobs, c: Collection)
    requires CollectionSafe(jobs, c)
    requires forall j :: j in c.items ==> j in after && Quiet(jobs[j], after[j])
    ensures CollectionSafe(after, c)
  {
    assert ActiveAmong(after, c.items) <= ActiveAmong(jobs, c.items);
    SubsetSize(ActiveAmong(after, c.items), ActiveAmong(jobs, c.items));
  }

  // ----- the invariant of the world

  ghost function ArrowsIn(g: Graph): set<(nat, nat)> {
    set e | e in g.edges :: (e.upstream, e.downstream)
  }

  /** Groups and members name each other, and stored graphs are acyclic. */
  ghost predicate GroupOk(w: World, j: nat)
    requires j in w.jobs
  {
    match w.jobs[j].spec.group
    case Alone => true
    case InGraph(g) => g in w.graphs && j in w.graphs[g].nodes
    case InCollection(c) => c in w.collections && j in w.collections[c].items
  }

  ghost predicate GraphLinked(w: World, g: nat)
    requires g in w.graphs
  {
    && (forall j :: j in w.graphs[g].nodes ==> j in w.jobs && w.jobs[j].spec.group == InGraph(g))
    && Distinct(w.graphs[g].nodes) && Edges(w.graphs[g]) && w.graphs[g].maxActive >= 1
         && !HasCycle(ArrowsIn(w.graphs[g]))
  }

  ghost predicate CollectionLinked(w: World, c: nat)
    requires c in w.collections
  {
    && (forall j :: j in w.collections[c].items ==> j in w.jobs && w.jobs[j].spec.group == InCollection(c))
    && Distinct(w.collections[c].items)
  }

  ghost predicate Linked(w: World) {
    && (forall j :: j in w.jobs ==> w.jobs[j].spec.namespace in w.namespaces && GroupOk(w, j))
    && (forall g :: g in w.graphs ==> GraphLinked(w, g))
    && (forall c :: c in w.collections ==> CollectionLinked(w, c))
  }

  ghost predicate GraphsSafe(w: World) {
    forall g :: g in w.graphs ==> GraphSafe(w.jobs, w.graphs[g])
  }

  ghost predicate GraphsSettled(w: World) {
    forall g :: g in w.graphs ==> Settled(w.jobs, w.graphs[g])
  }

  ghost predicate CollectionsSafe(w: World) {
    forall c :: c in w.collections ==> CollectionSafe(w.jobs, w.collections[c])
  }

  /** Execution and delivery ids identify their job. */
  ghost predicate UniqueIds(w: World) {
    forall i, j :: i in w.jobs && j in w.jobs && i != j && Dispatched(w.jobs[i].life) && Dispatched(w.jobs[j].life) ==>
      w.jobs[i].life.dispatch.execution != w.jobs[j].life.dispatch.execution
        && w.jobs[i].life.dispatch.delivery != w.jobs[j].life.dispatch.delivery
  }

  ghost predicate JobsOk(w: World) {
    forall j :: j in w.jobs ==> JobOk(w.jobs[j])
  }

  ghost predicate Owned(w: World, execution: nat) {
    exists j :: j in w.jobs && Dispatched(w.jobs[j].life) && w.jobs[j].life.dispatch.execution == execution
  }

  /** Every action belongs to an execution. A live execution has a cancel action exactly when its
      job is to be cancelled. */
  ghost predicate ActionsOk(w: World) {
    && (forall x :: x in w.actions ==> Owned(w, x))
    && forall j :: j in w.jobs && Dispatched(w.jobs[j].life) ==>
      && (w.jobs[j].life.dispatch.execution in w.actions ==> Authorized(w.jobs[j].life) && w.jobs[j].desire == ToCancel)
      && (w.jobs[j].life.Live? && w.jobs[j].desire == ToCancel ==> w.jobs[j].life.dispatch.execution in w.actions)
  }

  /** Log tables are consistent, and an execution with a log store ended only with both streams complete. */
  ghost predicate LogsOk(w: World) {
    && (forall k :: k in w.logs ==> Logs.Consistent(w.logs[k]))
    && (forall j :: j in w.jobs && w.jobs[j].life.Ended? && w.jobs[j].spec.logged ==>
         CompleteStreams(w, w.jobs[j].life.dispatch.execution) == 2)
  }

  ghost predicate Inv(w: World) {
    && Linked(w) && JobsOk(w) && GraphsSafe(w) && GraphsSettled(w) && CollectionsSafe(w)
    && UniqueIds(w) && ActionsOk(w) && LogsOk(w)
  }

  // ----- quiet transactions keep groups, safety and identity

  lemma SettlingLinked(w: World, v: World)
    requires Linked(w) && Settling(w, v)
    ensures Linked(v)
  {
    forall g | g in v.graphs ensures GraphLinked(v, g) {
      assert GraphLinked(w, g) && SameGraph(w.graphs[g], v.graphs[g]);
      assert ArrowsIn(v.graphs[g]) == ArrowsIn(w.graphs[g]);
    }
    forall c | c in v.collections ensures CollectionLinked(v, c) {
      assert CollectionLinked(w, c) && SameCollection(w.collections[c], v.collections[c]);
    }
    forall j | j in v.jobs ensures v.jobs[j].spec.namespace in v.namespaces && GroupOk(v, j) {
      assert Quiet(w.jobs[j], v.jobs[j]) && GroupOk(w, j);
    }
  }

  lemma SettlingSafe(w: World, v: World)
    requires GraphsSafe(w) && CollectionsSafe(w) && UniqueIds(w) && Settling(w, v)
    ensures GraphsSafe(v) && CollectionsSafe(v) && UniqueIds(v)
  {
    forall g | g in v.graphs ensures GraphSafe(v.jobs, v.graphs[g]) {
      assert SameGraph(w.graphs[g], v.graphs[g]);
      QuietKeepsGraph(w.jobs, v.jobs, w.graphs[g]);
    }
    forall c | c in v.collections ensures CollectionSafe(v.jobs, v.collections[c]) {
      assert SameCollection(w.collections[c], v.collections[c]);
      QuietKeepsCollection(w.jobs, v.jobs, w.collections[c]);
    }
    forall i, j | i in v.jobs && j in v.jobs && i != j && Dispatched(v.jobs[i].life) && Dispatched(v.jobs[j].life)
      ensures v.jobs[i].life.dispatch.execution != v.jobs[j].life.dispatch.execution
      ensures v.jobs[i].life.dispatch.delivery != v.jobs[j].life.dispatch.delivery
    {
      assert Quiet(w.jobs[i], v.jobs[i]) && Quiet(w.jobs[j], v.jobs[j]);
    }
  }
}
