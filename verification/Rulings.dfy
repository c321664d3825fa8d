/** What the execution transactions decide, told on the rows they read and nothing else. */
module Rulings {
  import opened Base
  import opened Domain
  import opened Propagation
  import opened ControlPlane
  import opened Invariants
  import opened Dispatching
  import opened Deliveries
  import Logs = LogAssembly

  // ----- acceptance

  /** The delivery id, seen from the caller's namespace, is that of the job's assignment. */
  ghost predicate Finds(w: World, j: nat, who: Identity, delivery: nat) {
    && j in w.jobs && !w.jobs[j].life.Waiting? && !w.jobs[j].life.Dropped?
    && who.namespace == w.jobs[j].spec.namespace && delivery == w.jobs[j].life.dispatch.delivery
  }

  /** Caller and request both name the offered agent and the job's generation, and the request names the
      offered execution and digest. */
  ghost predicate SameTerms(w: World, j: nat, who: Identity, a: AcceptanceRequest)
    requires Finds(w, j, who, a.delivery)
  {
    var d := w.jobs[j].life.dispatch;
    && who.agent == d.agent && a.agent == d.agent
    && who.generation == w.jobs[j].spec.generation && a.generation == w.jobs[j].spec.generation
    && a.execution == d.execution && a.effectiveDigest == d.digest
  }

  /** An acceptance is granted exactly when it names the offer in every column and the job is either still
      offered and wanted, or was accepted by the same request, which is then replayed. */
  lemma AcceptExactly(w: World, j: nat, who: Identity, a: AcceptanceRequest, now: nat)
    ensures Accept(w, j, who, a, now).1.Ok? <==>
      && Finds(w, j, who, a.delivery) && SameTerms(w, j, who, a)
      && match w.jobs[j].life {
        case Offered(_, _) => w.jobs[j].desire == ToRun
        case Live(_, acceptance, _, _, _) => acceptance.request == a.requestDigest
        case Ended(_, acceptance, _, _, _) => acceptance.request == a.requestDigest
        case _ => false
      }
    ensures Accept(w, j, who, a, now).1.Ok? ==>
      Accept(w, j, who, a, now).1.value.replayed == !w.jobs[j].life.Offered?
  {
  }

  /** Why an acceptance is refused; a refusal changes nothing. */
  lemma AcceptRefusals(w: World, j: nat, who: Identity, a: AcceptanceRequest, now: nat)
    ensures var (v, reply) := Accept(w, j, who, a, now);
      && (reply.Err? ==> v == w)
      && (reply == Err(NotFound) <==> !Finds(w, j, who, a.delivery))
      && (reply == Err(Forbidden) <==> Finds(w, j, who, a.delivery) && !SameTerms(w, j, who, a))
      && (reply == Err(IdempotencyConflict) <==>
           && Finds(w, j, who, a.delivery) && SameTerms(w, j, who, a) && Authorized(w.jobs[j].life)
           && w.jobs[j].life.acceptance.request != a.requestDigest)
      && (reply == Err(Conflict) <==>
           && Finds(w, j, who, a.delivery) && SameTerms(w, j, who, a)
           && (w.jobs[j].life.Withdrawn? || (w.jobs[j].life.Offered? && w.jobs[j].desire == ToCancel)))
  {
    if j in w.jobs { assert w.jobs[j := w.jobs[j]] == w.jobs; }
  }

  /** A first grant makes the execution live at the next revision with no events, and touches no other row;
      the reply is a copy of what is stored. A replay touches nothing. */
  lemma AcceptWrites(w: World, j: nat, who: Identity, a: AcceptanceRequest, now: nat)
    requires Accept(w, j, who, a, now).1.Ok?
    ensures var (v, reply) := Accept(w, j, who, a, now); var r := reply.value;
      && j in w.jobs && Dispatched(w.jobs[j].life)
      && var job := w.jobs[j]; var d := job.life.dispatch;
         && r == Authorization(a.delivery, a.execution, a.agent, a.generation, a.effectiveDigest, r.revision,
                               r.acceptedAt, r.replayed)
         && (r.replayed ==> v == w && r.revision == job.life.revision && r.acceptedAt == job.life.acceptance.at)
         && (!r.replayed ==>
              && r.revision == job.life.revision + 1 && r.acceptedAt == now
              && v == w.(jobs := w.jobs[j := Job(job.spec, job.desire, job.revision + 1,
                                                 Live(d, Acceptance(now, a.requestDigest), false, r.revision, []))]))
  {
    assert w.jobs[j := w.jobs[j]] == w.jobs;
  }

  // ----- events

  ghost predicate StreamEnded(w: World, execution: nat, stream: string) {
    && (execution, stream) in w.logs && w.logs[(execution, stream)].row.Some?
    && w.logs[(execution, stream)].row.value.state == Logs.Complete
  }

  /** An execution may end once its artifacts are published and, with a log store, both streams are complete. */
  ghost predicate MayEnd(w: World, j: nat, e: Event)
    requires j in w.jobs && w.jobs[j].life.Live?
  {
    && e.artifactsMatch
    && (w.jobs[j].spec.logged ==>
         StreamEnded(w, w.jobs[j].life.dispatch.execution, "stdout")
         && StreamEnded(w, w.jobs[j].life.dispatch.execution, "stderr"))
  }

  /** What each kind of event needs of the execution it is about. */
  ghost predicate KindFits(w: World, j: nat, e: Event)
    requires j in w.jobs && w.jobs[j].life.Live?
  {
    var slurm, running := w.jobs[j].spec.slurm, w.jobs[j].life.running;
    match e.kind
    case ProcessStarted => !slurm && !running
    case ProcessCompleted => !slurm && MayEnd(w, j, e)
    case SchedulerUncertain => slurm && e.slurm && !running
    case SchedulerSubmitted => slurm && e.slurm && !running
    case SchedulerObserved => slurm && e.slurm
    case SchedulerCompleted => slurm && e.slurm && MayEnd(w, j, e)
    case UnknownKind => false
  }

  /** Some stored event of job j has the id. */
  ghost predicate HasEvent(w: World, j: nat, id: nat) {
    exists e :: e in Stored(w, j) && e.id == id
  }

  /** The execution is the caller's, in its namespace. */
  ghost predicate Owns(w: World, j: nat, who: Identity, agent: nat) {
    && j in w.jobs && !w.jobs[j].life.Waiting? && !w.jobs[j].life.Dropped?
    && who.namespace == w.jobs[j].spec.namespace
    && who.agent == w.jobs[j].life.dispatch.agent && agent == w.jobs[j].life.dispatch.agent
  }

  lemma TakenExactly(w: World, id: nat)
    ensures EventIdTaken(w, id) <==> exists i :: HasEvent(w, i, id)
  {
    forall i ensures HasEvent(w, i, id) <==> i in w.jobs && EventNamed(EventsOf(w.jobs[i].life), id).Some? {}
  }

  lemma StreamsExactly(w: World, x: nat)
    ensures CompleteStreams(w, x) == 2 <==> StreamEnded(w, x, "stdout") && StreamEnded(w, x, "stderr")
  {
  }

  lemma AdmitsExactly(w: World, j: nat, e: Event)
    requires j in w.jobs
    ensures Admits(w, j, e) <==>
      w.jobs[j].life.Live? && e.sequence == |w.jobs[j].life.events| + 1 && KindFits(w, j, e)
  {
    if w.jobs[j].life.Live? { StreamsExactly(w, w.jobs[j].life.dispatch.execution); }
  }

  /** An event is taken as new exactly when a live execution of the caller's has no event of that id, nor
      has any other, it is next in sequence, and its kind fits. */
  lemma RecordExactly(w: World, j: nat, who: Identity, e: Event)
    ensures Record(w, j, who, e).1 == Ok(false) <==>
      && Owns(w, j, who, e.agent) && w.jobs[j].life.Live?
      && (forall i :: !HasEvent(w, i, e.id))
      && e.sequence == |w.jobs[j].life.events| + 1 && KindFits(w, j, e)
  {
    TakenExactly(w, e.id);
    if j in w.jobs {
      AdmitsExactly(w, j, e);
      assert HasEvent(w, j, e.id) <==> EventNamed(EventsOf(w.jobs[j].life), e.id).Some?;
    }
  }

  // ----- event ids identify events

  /** No two stored events, of one job or of two, share an id. */
  ghost predicate DistinctEvents(w: World) {
    forall i, j, p, q ::
      0 <= p < |Stored(w, i)| && 0 <= q < |Stored(w, j)| && Stored(w, i)[p].id == Stored(w, j)[q].id ==>
      i == j && p == q
  }

  lemma AppendDistinct(w: World, v: World, j: nat, e: Event)
    requires DistinctEvents(w) && (forall i :: !HasEvent(w, i, e.id))
    requires Stored(v, j) == Stored(w, j) + [e] && forall i :: i != j ==> Stored(v, i) == Stored(w, i)
    ensures DistinctEvents(v)
  {
    forall i, p | 0 <= p < |Stored(v, i)| && Stored(v, i)[p].id == e.id ensures i == j && p == |Stored(w, j)| {
      assert !HasEvent(w, i, e.id);
    }
    forall i, k, p, q | 0 <= p < |Stored(v, i)| && 0 <= q < |Stored(v, k)| && Stored(v, i)[p].id == Stored(v, k)[q].id
      ensures i == k && p == q
    {
      if Stored(v, i)[p].id != e.id { assert Stored(v, i)[p] == Stored(w, i)[p] && Stored(v, k)[q] == Stored(w, k)[q]; }
    }
  }

  lemma SameEventsDistinct(w: World, v: World)
    requires DistinctEvents(w) && forall i :: Stored(v, i) == Stored(w, i)
    ensures DistinctEvents(v)
  {
  }

  lemma StepDistinct(w: World, s: Step)
    requires DistinctEvents(w)
    ensures DistinctEvents(Apply(w, s))
  {
    if s.RecordStep? && Delivers(w, s, s.j) {
      RecordExactly(w, s.j, s.who, s.event);
      StepStores(w, s, s.j);
      forall i | i != s.j ensures Stored(Apply(w, s), i) == Stored(w, i) { StepStores(w, s, i); }
      AppendDistinct(w, Apply(w, s), s.j, s.event);
    } else {
      forall i ensures Stored(Apply(w, s), i) == Stored(w, i) { StepStores(w, s, i); }
      SameEventsDistinct(w, Apply(w, s));
    }
  }

  /** Along every run, event ids identify events. */
  lemma {:induction false} EventIdsAreUnique(namespaces: map<nat, NamespacePolicy>, steps: seq<Step>)
    ensures DistinctEvents(Run(Empty(namespaces), steps))
  {
    if steps != [] {
      EventIdsAreUnique(namespaces, steps[..|steps| - 1]);
      StepDistinct(Run(Empty(namespaces), steps[..|steps| - 1]), steps[|steps| - 1]);
    }
  }

  /** Every other answer to an event, none of which changes anything: a replay exactly when the same event
      is stored, a conflict of digests exactly when another one is stored under its id. */
  lemma RecordRefusals(w: World, j: nat, who: Identity, e: Event)
    requires DistinctEvents(w)
    ensures var (v, reply) := Record(w, j, who, e);
      && (reply != Ok(false) ==> v == w)
      && (reply == Ok(true) <==>
           Owns(w, j, who, e.agent) && exists x :: x in Stored(w, j) && x.id == e.id && x.digest == e.digest)
      && (reply == Err(IdempotencyConflict) <==>
           Owns(w, j, who, e.agent) && exists x :: x in Stored(w, j) && x.id == e.id && x.digest != e.digest)
      && (reply == Err(Internal) <==>
           && Owns(w, j, who, e.agent) && w.jobs[j].life.Live? && !HasEvent(w, j, e.id)
           && (exists i :: HasEvent(w, i, e.id))
           && e.sequence == |w.jobs[j].life.events| + 1 && KindFits(w, j, e))
      && (reply == Err(NotFound) <==>
           j !in w.jobs || w.jobs[j].life.Waiting? || w.jobs[j].life.Dropped?
             || w.jobs[j].spec.namespace != who.namespace)
  {
    TakenExactly(w, e.id);
    if j in w.jobs {
      AdmitsExactly(w, j, e);
      assert HasEvent(w, j, e.id) <==> EventNamed(EventsOf(w.jobs[j].life), e.id).Some?;
    }
  }

  // ----- two consequences

  /** No event follows a completion, and none that only an execution not yet running admits follows one
      that showed it running. */
  ghost predicate InOrder(events: seq<Event>) {
    forall p, q :: 0 <= p < q < |events| ==>
      && !events[p].kind.ProcessCompleted? && !events[p].kind.SchedulerCompleted?
      && (events[p].kind.ProcessStarted? || events[p].running ==>
           !events[q].kind.ProcessStarted? && !events[q].kind.SchedulerSubmitted?
             && !events[q].kind.SchedulerUncertain?)
  }

  lemma NextInOrder(w: World, j: nat, who: Identity, e: Event)
    requires j in w.jobs && Tells(w.jobs[j].life) && InOrder(Stored(w, j)) && Record(w, j, who, e).1 == Ok(false)
    ensures InOrder(Stored(w, j) + [e])
  {
    RecordExactly(w, j, who, e);
    forall x | x in Stored(w, j)
      ensures !x.kind.ProcessCompleted? && !x.kind.SchedulerCompleted?
      ensures x.kind.ProcessStarted? || x.running ==>
        !e.kind.ProcessStarted? && !e.kind.SchedulerSubmitted? && !e.kind.SchedulerUncertain?
    {
      assert !IsCompletion(x.kind) && (ShowsRunning(x) ==> w.jobs[j].life.running);
    }
  }

  /** Along every run the deliveries of a job that were accepted as new are in a legal order. */
  lemma {:induction false} DeliveriesInOrder(namespaces: map<nat, NamespacePolicy>, steps: seq<Step>, j: nat)
    ensures InOrder(Delivered(Empty(namespaces), steps, j))
  {
    if steps != [] {
      var before, last := steps[..|steps| - 1], steps[|steps| - 1];
      DeliveriesInOrder(namespaces, before, j);
      if Delivers(Run(Empty(namespaces), before), last, j) {
        StoredIsDelivered(namespaces, before, j);
        EventsTellAll(namespaces, before, j);
        NextInOrder(Run(Empty(namespaces), before), j, last.who, last.event);
      } else {
        assert Delivered(Empty(namespaces), steps, j) == Delivered(Empty(namespaces), before, j);
      }
    }
  }

  lemma {:induction false} Above(numbers: set<nat>) returns (n: nat)
    ensures forall x :: x in numbers ==> x < n
  {
    n := 0;
    if numbers != {} {
      var x :| x in numbers;
      var rest := Above(numbers - {x});
      n := if rest <= x then x + 1 else rest;
      assert forall y :: y in numbers ==> y == x || y in numbers - {x};
    }
  }

  lemma UnusedEventId(w: World) returns (id: nat)
    ensures forall i :: !HasEvent(w, i, id)
  {
    var ids := set j, e | j in w.jobs && e in EventsOf(w.jobs[j].life) :: e.id;
    id := Above(ids);
    forall i, e | e in Stored(w, i) ensures e.id != id { assert e.id in ids; }
  }

  lemma CompletionEnds(w: World, j: nat, who: Identity, e: Event)
    requires Record(w, j, who, e).1 == Ok(false) && (e.kind.ProcessCompleted? || e.kind.SchedulerCompleted?)
    ensures var v := Record(w, j, who, e).0;
      && j in w.jobs && w.jobs[j].life.Live? && j in v.jobs
      && v.jobs[j] == w.jobs[j].(revision := w.jobs[j].revision + 1,
           life := Ended(w.jobs[j].life.dispatch, w.jobs[j].life.acceptance, e.outcome, w.jobs[j].life.revision + 1,
                         w.jobs[j].life.events + [e]))
  {
    CompletionSettling(Observed(w, j, e), j);
    assert Quiet(Observed(w, j, e).jobs[j], Record(w, j, who, e).0.jobs[j]);
  }

  /** A live execution can always be ended with any outcome, once its streams are complete if it has a log store. */
  lemma CompletionIsPossible(w: World, j: nat, outcome: Outcome) returns (who: Identity, e: Event)
    requires j in w.jobs && w.jobs[j].life.Live?
    requires w.jobs[j].spec.logged ==>
      StreamEnded(w, w.jobs[j].life.dispatch.execution, "stdout")
      && StreamEnded(w, w.jobs[j].life.dispatch.execution, "stderr")
    ensures Record(w, j, who, e).1 == Ok(false)
    ensures var v := Record(w, j, who, e).0; j in v.jobs && v.jobs[j].life.Ended? && v.jobs[j].life.outcome == outcome
  {
    var job := w.jobs[j];
    var agent := job.life.dispatch.agent;
    var id := UnusedEventId(w);
    var kind := if job.spec.slurm then SchedulerCompleted else ProcessCompleted;
    who := Identity(job.spec.namespace, agent, job.spec.generation);
    e := Event(id, agent, |job.life.events| + 1, kind, outcome, false, job.spec.slurm, true, 0);
    RecordExactly(w, j, who, e);
    CompletionEnds(w, j, who, e);
  }
}
