/** Execution events: at-least-once delivery with an exactly-once effect. */
module Deliveries {
  import opened Base
  import opened Domain
  import opened Propagation
  import opened ControlPlane
  import opened Invariants
  import opened Dispatching

  // ----- what a run delivered

  /** The step delivers an event of job j that is accepted as new. */
  ghost predicate Delivers(w: World, s: Step, j: nat) {
    s.RecordStep? && s.j == j && Record(w, j, s.who, s.event).1 == Ok(false)
  }

  /** The events of job j that the run's deliveries had accepted as new, in order. */
  ghost function Delivered(w: World, steps: seq<Step>, j: nat): seq<Event> {
    if steps == [] then [] else
      var before, last := steps[..|steps| - 1], steps[|steps| - 1];
      Delivered(w, before, j) + if Delivers(Run(w, before), last, j) then [last.event] else []
  }

  /** The events stored for job j. */
  ghost function Stored(w: World, j: nat): seq<Event> {
    if j in w.jobs then EventsOf(w.jobs[j].life) else []
  }

  // ----- nothing but a delivery touches the stored events

  lemma CancelRowStores(w: World, i: nat, j: nat)
    ensures Stored(CancelRow(w, i), j) == Stored(w, j)
  {
  }

  lemma {:induction false} CancelAllStores(w: World, ids: seq<nat>, j: nat)
    ensures Stored(CancelAll(w, ids), j) == Stored(w, j)
  {
    if ids != [] {
      CancelAllStores(w, ids[..|ids| - 1], j);
      CancelRowStores(CancelAll(w, ids[..|ids| - 1]), ids[|ids| - 1], j);
    }
  }

  lemma CompleteCollectionStores(w: World, i: nat, j: nat)
    ensures Stored(CompleteCollection(w, i), j) == Stored(w, j)
  {
    if i in w.jobs && w.jobs[i].spec.group.InCollection? && w.jobs[i].spec.group.collection in w.collections {
      CancelAllStores(w, w.collections[w.jobs[i].spec.group.collection].items, j);
    }
  }

  lemma PropagateStores(jobs: Jobs, g: Graph, j: nat)
    requires j in jobs
    ensures j in Propagate(jobs, g) && EventsOf(Propagate(jobs, g)[j].life) == EventsOf(jobs[j].life)
  {
    PropagateEffect(jobs, g);
    assert DisposedRightly(jobs, Propagate(jobs, g), g, j);
  }

  lemma CompleteGraphStores(w: World, i: nat, j: nat)
    ensures Stored(CompleteGraph(w, i), j) == Stored(w, j)
  {
    if i in w.jobs && w.jobs[i].spec.group.InGraph? && w.jobs[i].spec.group.graph in w.graphs {
      var g := w.graphs[w.jobs[i].spec.group.graph];
      PropagateEffect(w.jobs, g);
      if j in w.jobs { PropagateStores(w.jobs, g, j); }
    }
  }

  lemma CompletionStores(w: World, i: nat, j: nat)
    ensures Stored(CompleteGraph(CompleteCollection(w, i), i), j) == Stored(w, j)
  {
    CompleteCollectionStores(w, i, j);
    CompleteGraphStores(CompleteCollection(w, i), i, j);
  }

  lemma ObservedStores(w: World, i: nat, e: Event, j: nat)
    requires i in w.jobs && w.jobs[i].life.Live?
    ensures Stored(Observed(w, i, e), j) == Stored(w, j) + if i == j then [e] else []
  {
  }

  lemma RecordStores(w: World, i: nat, who: Identity, e: Event, j: nat)
    ensures Stored(Record(w, i, who, e).0, j) == Stored(w, j) + if i == j && Record(w, i, who, e).1 == Ok(false)
      then [e] else []
  {
    if Record(w, i, who, e).1 == Ok(false) {
      ObservedStores(w, i, e, j);
      CompletionStores(Observed(w, i, e), i, j);
    }
  }

  lemma CancelJobStores(w: World, i: nat, j: nat)
    ensures Stored(CancelJob(w, i), j) == Stored(w, j)
  {
    CancelRowStores(w, i, j);
    CompleteGraphStores(CancelRow(w, i), i, j);
  }

  lemma CancelGraphStores(w: World, g: nat, j: nat)
    ensures Stored(CancelGraph(w, g), j) == Stored(w, j)
  {
    if g in w.graphs { CancelAllStores(w, w.graphs[g].nodes, j); }
  }

  lemma AddJobsStores(w: World, v: World, ids: seq<nat>, specs: seq<Spec>, group: Group, j: nat)
    requires NewJobs(w, ids, specs, group) && v.jobs == AddJobs(w.jobs, ids, specs)
    ensures Stored(v, j) == Stored(w, j)
  {
    AddJobsKeeps(w.jobs, ids, specs);
    if j in ids {
      var i :| 0 <= i < |ids| && ids[i] == j && v.jobs[j] == Fresh(specs[i]);
    }
  }

  lemma SubmissionStores(w: World, s: Step, j: nat)
    requires s.SubmitJobStep? || s.SubmitCollectionStep? || s.SubmitGraphStep?
    ensures Stored(Apply(w, s), j) == Stored(w, j)
  {
    var v := Apply(w, s);
    match s
    case SubmitJobStep(id, spec) => assert NewJobs(w, [id], [spec], Alone) ==> [id][0] !in w.jobs;
    case SubmitCollectionStep(c, ids, specs, _, _, _) =>
      if v != w { AddJobsStores(w, v, ids, specs, InCollection(c), j); }
    case SubmitGraphStep(g, r, ids, specs) => if v != w { AddJobsStores(w, v, ids, specs, InGraph(g), j); }
  }

  lemma AcceptStores(w: World, i: nat, who: Identity, a: AcceptanceRequest, now: nat, j: nat)
    ensures Stored(Accept(w, i, who, a, now).0, j) == Stored(w, j)
  {
  }

  lemma OfferStores(w: World, env: Surroundings, i: nat, run: nat, execution: nat, delivery: nat, digest: nat, now: nat,
      j: nat)
    ensures Stored(Offer(w, env, i, run, execution, delivery, digest, now), j) == Stored(w, j)
  {
  }

  lemma MarkStaleStores(w: World, i: nat, j: nat)
    ensures Stored(MarkStale(w, i), j) == Stored(w, j)
  {
  }

  /** A step adds to the stored events of a job exactly the event it delivers to it. */
  lemma StepStores(w: World, s: Step, j: nat)
    ensures Stored(Apply(w, s), j) == Stored(w, j) + if Delivers(w, s, j) then [s.event] else []
  {
    match s
    case RecordStep(i, who, e) => RecordStores(w, i, who, e, j);
    case CancelJobStep(i) => CancelJobStores(w, i, j);
    case CancelGraphStep(g) => CancelGraphStores(w, g, j);
    case AcceptStep(i, who, a, now) => AcceptStores(w, i, who, a, now, j);
    case OfferStep(env, i, run, execution, delivery, digest, now) =>
      OfferStores(w, env, i, run, execution, delivery, digest, now, j);
    case MarkStaleStep(i) => MarkStaleStores(w, i, j);
    case AcknowledgeStep(_, _) =>
    case CommitLogStep(_, _, _, _, _, _) =>
    case _ => SubmissionStores(w, s, j);
  }

  /** Along every run the stored events of a job are exactly its deliveries that were accepted as new, in order. */
  lemma {:induction false} StoredIsDelivered(namespaces: map<nat, NamespacePolicy>, steps: seq<Step>, j: nat)
    ensures Stored(Run(Empty(namespaces), steps), j) == Delivered(Empty(namespaces), steps, j)
  {
    if steps != [] {
      var before, last := steps[..|steps| - 1], steps[|steps| - 1];
      StoredIsDelivered(namespaces, before, j);
      StepStores(Run(Empty(namespaces), before), last, j);
    }
  }

  /** At-least-once delivery has an exactly-once effect: whatever a run retries, repeats or sends out of
      sequence, an accepted execution is one in-order application of the deliveries accepted as new; their
      sequences are 1, 2, ...; and one with a log store has ended only after both its streams were complete. */
  lemma EventsApplyOnce(namespaces: map<nat, NamespacePolicy>, steps: seq<Step>, j: nat)
    requires j in Run(Empty(namespaces), steps).jobs && Authorized(Run(Empty(namespaces), steps).jobs[j].life)
    ensures var w := Run(Empty(namespaces), steps); var life := w.jobs[j].life;
      var delivered := Delivered(Empty(namespaces), steps, j);
      && Unversioned(life) == Unversioned(Replay(life.dispatch, life.acceptance, delivered))
      && Numbered(delivered)
      && (life.Ended? && w.jobs[j].spec.logged ==> CompleteStreams(w, life.dispatch.execution) == 2)
  {
    Reachable(namespaces, steps);
    StoredIsDelivered(namespaces, steps, j);
    assert JobOk(Run(Empty(namespaces), steps).jobs[j]);
  }

  predicate ShowsRunning(e: Event) {
    !IsCompletion(e.kind) && (e.kind.ProcessStarted? || e.running)
  }

  /** What a history of events says by itself: ended with the outcome of its last event if that is its
      only completion, running if some event showed so, and otherwise not yet started. */
  ghost predicate Tells(life: Life) {
    match life
    case Live(_, _, running, _, events) =>
      && (forall e :: e in events ==> !IsCompletion(e.kind))
      && (running <==> exists e :: e in events && ShowsRunning(e))
    case Ended(_, _, outcome, _, events) =>
      && events != [] && IsCompletion(events[|events| - 1].kind) && outcome == events[|events| - 1].outcome
      && (forall e :: e in events[..|events| - 1] ==> !IsCompletion(e.kind))
    case _ => true
  }

  lemma ObserveTells(life: Life, e: Event)
    requires life.Live? && Tells(life)
    ensures Tells(Observe(life, e))
  {
    var more := life.events + [e];
    assert more[..|more| - 1] == life.events && more[|more| - 1] == e;
    if !IsCompletion(e.kind) && ShowsRunning(e) { assert e in more; }
    if x :| x in life.events && ShowsRunning(x) { assert x in more; }
  }

  lemma {:induction false} ReplayTells(d: Dispatch, a: Acceptance, events: seq<Event>)
    ensures Tells(Replay(d, a, events))
  {
    if events != [] {
      ReplayTells(d, a, events[..|events| - 1]);
      var before := Replay(d, a, events[..|events| - 1]);
      if before.Live? { ObserveTells(before, events[|events| - 1]); }
    }
  }

  lemma OkTells(job: Job)
    requires JobOk(job)
    ensures Tells(job.life)
  {
    if Authorized(job.life) { ReplayTells(job.life.dispatch, job.life.acceptance, job.life.events); }
  }

  /** In every reachable state an accepted execution is in the phase, and has the outcome, that its
      stored events tell. */
  lemma EventsTellAll(namespaces: map<nat, NamespacePolicy>, steps: seq<Step>, j: nat)
    requires j in Run(Empty(namespaces), steps).jobs
    ensures Tells(Run(Empty(namespaces), steps).jobs[j].life)
  {
    Reachable(namespaces, steps);
    OkTells(Run(Empty(namespaces), steps).jobs[j]);
  }

  lemma {:induction false} EventNamedInPrefix(a: seq<Event>, b: seq<Event>, id: nat)
    requires a <= b && EventNamed(a, id).Some?
    ensures EventNamed(b, id) == EventNamed(a, id)
  {
    if a[0].id != id { EventNamedInPrefix(a[1..], b[1..], id); }
  }

  lemma {:induction false} EventNamedLast(events: seq<Event>, e: Event)
    requires EventNamed(events, e.id).None?
    ensures EventNamed(events + [e], e.id) == Some(e)
  {
    if events != [] {
      assert (events + [e])[1..] == events[1..] + [e];
      EventNamedLast(events[1..], e);
    }
  }

  ghost predicate Holding(job: Job, who: Identity, e: Event) {
    && AddressesJob(job, who.namespace) && job.life.dispatch.agent == who.agent == e.agent
    && EventNamed(EventsOf(job.life), e.id).Some? && EventNamed(EventsOf(job.life), e.id).value.digest == e.digest
  }

  lemma HoldingIsReplay(w: World, j: nat, who: Identity, e: Event)
    requires j in w.jobs && Holding(w.jobs[j], who, e)
    ensures Record(w, j, who, e) == (w, Ok(true))
  {
  }

  lemma HoldingLater(a: Job, b: Job, who: Identity, e: Event)
    requires Holding(a, who, e) && Later(a, b)
    ensures Holding(b, who, e)
  {
    EventNamedInPrefix(EventsOf(a.life), EventsOf(b.life), e.id);
  }

  lemma ObservedHolds(w: World, j: nat, who: Identity, e: Event)
    requires j in w.jobs && w.jobs[j].life.Live? && AddressesJob(w.jobs[j], who.namespace)
    requires w.jobs[j].life.dispatch.agent == who.agent == e.agent && EventNamed(w.jobs[j].life.events, e.id).None?
    ensures Holding(Observed(w, j, e).jobs[j], who, e)
  {
    EventNamedLast(w.jobs[j].life.events, e);
  }

  lemma CompletedHolds(u: World, j: nat, who: Identity, e: Event)
    requires j in u.jobs && Holding(u.jobs[j], who, e)
    ensures var v := CompleteGraph(CompleteCollection(u, j), j); j in v.jobs && Holding(v.jobs[j], who, e)
  {
    CompletionSettling(u, j);
    HoldingLater(u.jobs[j], CompleteGraph(CompleteCollection(u, j), j).jobs[j], who, e);
  }

  lemma RecordedIsHeld(w: World, j: nat, who: Identity, e: Event)
    requires Record(w, j, who, e).1.Ok?
    ensures j in Record(w, j, who, e).0.jobs && Holding(Record(w, j, who, e).0.jobs[j], who, e)
  {
    if !Record(w, j, who, e).1.value {
      ObservedHolds(w, j, who, e);
      if IsCompletion(e.kind) { CompletedHolds(Observed(w, j, e), j, who, e); }
    }
  }

  lemma HeldIsReplay(w: World, v: World, j: nat, who: Identity, e: Event)
    requires Onward(w, v) && j in w.jobs && Holding(w.jobs[j], who, e)
    ensures Record(v, j, who, e) == (v, Ok(true))
  {
    HoldingLater(w.jobs[j], v.jobs[j], who, e);
    HoldingIsReplay(v, j, who, e);
  }

  /** An accepted event delivered again, at any later point of the run, is answered as a replay and changes nothing. */
  lemma RedeliveryIsReplay(w: World, steps: seq<Step>, more: seq<Step>, j: nat, who: Identity, e: Event)
    requires Record(Run(w, steps), j, who, e).1.Ok?
    ensures var v := Run(w, steps + [RecordStep(j, who, e)] + more); Record(v, j, who, e) == (v, Ok(true))
  {
    var recorded := steps + [RecordStep(j, who, e)];
    assert recorded[..|recorded| - 1] == steps;
    RecordedIsHeld(Run(w, steps), j, who, e);
    RunOnward(w, recorded, more);
    HeldIsReplay(Run(w, recorded), Run(w, recorded + more), j, who, e);
  }

  /** A new event that is not next in sequence is refused without effect. */
  lemma OutOfSequenceIsRefused(w: World, j: nat, who: Identity, e: Event)
    requires j in w.jobs && e.sequence != |EventsOf(w.jobs[j].life)| + 1
    requires EventNamed(EventsOf(w.jobs[j].life), e.id).None?
    ensures Record(w, j, who, e).0 == w && Record(w, j, who, e).1.Err?
  {
  }
}
