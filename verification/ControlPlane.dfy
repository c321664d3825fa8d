/** The store's transactions as one state machine.

    Every transaction locks the rows it decides on, so each is one atomic step. A failed transaction is
    rolled back and leaves the world as it was. */
module ControlPlane {
  import opened Base
  import opened Domain
  import opened Propagation
  import Logs = LogAssembly
  import Requests = GraphRequests

  /** A cancel action; executions have at most one, so it is filed under its execution. */
  datatype ActionState = Pending | Acknowledged

  datatype NamespacePolicy = NamespacePolicy(maxActive: nat, lastDispatched: Option<nat>)

  datatype World = World(
    jobs: Jobs, graphs: map<nat, Graph>, collections: map<nat, Collection>,
    actions: map<nat, ActionState>, namespaces: map<nat, NamespacePolicy>, logs: map<(nat, string), Logs.Table>)

  // ----- submission

  function Fresh(spec: Spec): Job {
    Job(spec, ToRun, 1, Waiting)
  }

  ghost predicate NewJobs(w: World, ids: seq<nat>, specs: seq<Spec>, group: Group) {
    && |ids| == |specs|
    && (forall i, j :: 0 <= i < j < |ids| ==> ids[i] != ids[j])
    && (forall i :: 0 <= i < |ids| ==>
         ids[i] !in w.jobs && specs[i].group == group && specs[i].namespace in w.namespaces)
  }

  ghost function AddJobs(jobs: Jobs, ids: seq<nat>, specs: seq<Spec>): Jobs
    requires |ids| == |specs|
  {
    if ids == [] then jobs
    else AddJobs(jobs, ids[..|ids| - 1], specs[..|ids| - 1])[ids[|ids| - 1] := Fresh(specs[|ids| - 1])]
  }

  ghost function SubmitJob(w: World, id: nat, spec: Spec): World {
    if NewJobs(w, [id], [spec], Alone) then w.(jobs := w.jobs[id := Fresh(spec)]) else w
  }

  ghost function SubmitCollection(w: World, c: nat, ids: seq<nat>, specs: seq<Spec>, maxActive: nat, failFast: bool,
      slurmArray: bool): World {
    if c !in w.collections && 1 <= maxActive <= |ids| && NewJobs(w, ids, specs, InCollection(c)) then
      w.(jobs := AddJobs(w.jobs, ids, specs),
         collections := w.collections[c := Collection(ids, maxActive, failFast, slurmArray, 1)])
    else w
  }

  function ConditionOf(text: string): Condition {
    if text == "success" then OnSuccess else if text == "failure" then OnFailure
    else if text == "any-terminal" then AnyTerminal else OnOutcomes
  }

  function OutcomeNamed(text: string): Outcome {
    if text == "success" then Success else if text == "failure" then Failure
    else if text == "cancelled" then Cancelled else if text == "timed_out" then TimedOut
    else if text == "aborted" then Aborted else Lost
  }

  function PolicyOf(text: string): Policy {
    if text == "skip" then SkipUnsatisfied else if text == "cancel" then CancelUnsatisfied else BlockUnsatisfied
  }

  /** The job submitted for the node of that name. */
  ghost function JobNamed(nodes: seq<Requests.Node>, ids: seq<nat>, name: string): nat
    requires |ids| == |nodes| && exists i :: 0 <= i < |nodes| && nodes[i].name == name
  {
    var i :| 0 <= i < |nodes| && nodes[i].name == name;
    ids[i]
  }

  ghost function EdgeFor(r: Requests.Request, ids: seq<nat>, e: Requests.Edge): Edge
    requires |ids| == |r.nodes| && Requests.ValidEdge(e, Requests.Names(r.nodes))
  {
    Edge(JobNamed(r.nodes, ids, e.from), JobNamed(r.nodes, ids, e.to), ConditionOf(e.condition),
         seq(|e.outcomes|, i requires 0 <= i < |e.outcomes| => OutcomeNamed(e.outcomes[i])))
  }

  ghost function EdgesFor(r: Requests.Request, ids: seq<nat>): (edges: seq<Edge>)
    requires |ids| == |r.nodes| && Requests.ValidEdges(r.edges, Requests.Names(r.nodes))
    ensures |edges| == |r.edges| && forall k :: 0 <= k < |edges| ==> edges[k] == EdgeFor(r, ids, r.edges[k])
  {
    seq(|r.edges|, k requires 0 <= k < |r.edges| => EdgeFor(r, ids, r.edges[k]))
  }

  /** The stored graph of an admitted request. */
  ghost function GraphFor(r: Requests.Request, ids: seq<nat>): Graph
    requires Requests.Admissible(r) && |ids| == |r.nodes|
  {
    Graph(ids, EdgesFor(r, ids), PolicyOf(r.policy), r.maxActive, 1)
  }

  ghost function SubmitGraph(w: World, g: nat, r: Requests.Request, ids: seq<nat>, specs: seq<Spec>): World {
    if g !in w.graphs && Requests.Admissible(r) && |ids| == |r.nodes| && NewJobs(w, ids, specs, InGraph(g)) then
      w.(jobs := AddJobs(w.jobs, ids, specs), graphs := w.graphs[g := GraphFor(r, ids)])
    else w
  }

  // ----- dispatch

  ghost function ActiveAmong(jobs: Jobs, ids: seq<nat>): set<nat> {
    set j | j in ids && j in jobs && Active(jobs[j].life)
  }

  ghost function ActiveInNamespace(jobs: Jobs, namespace: nat): set<nat> {
    set j | j in jobs && jobs[j].spec.namespace == namespace && Active(jobs[j].life)
  }

  /** What the claim query finds outside the tables above: whether dispatch is on hold, and for each job
      the agents that pass every check on target, owner, status, capability and session, oldest first. */
  datatype Surroundings = Surroundings(hold: bool, agents: map<nat, seq<nat>>)

  predicate Earlier(d: Dispatch, e: Dispatch) {
    d.at < e.at || (d.at == e.at && d.execution < e.execution)
  }

  /** The earliest execution among the given jobs. */
  function FirstDispatch(jobs: Jobs, ids: seq<nat>): (r: Option<Dispatch>)
    ensures r.Some? ==>
      exists j :: j in ids && j in jobs && Dispatched(jobs[j].life) && jobs[j].life.dispatch == r.value
    ensures r.None? ==> forall j :: j in ids && j in jobs ==> !Dispatched(jobs[j].life)
  {
    if ids == [] then None else
      var rest := FirstDispatch(jobs, ids[1..]);
      if ids[0] !in jobs || !Dispatched(jobs[ids[0]].life) then rest
      else
        var d := jobs[ids[0]].life.dispatch;
        if rest.None? || Earlier(d, rest.value) then Some(d) else rest
  }

  /** Members of one Slurm array all go to the agent that got the first of them. */
  predicate Affine(w: World, j: nat, agent: nat)
    requires j in w.jobs
  {
    match w.jobs[j].spec.group
    case InCollection(c) =>
      c in w.collections && w.collections[c].slurmArray ==>
        var first := FirstDispatch(w.jobs, w.collections[c].items);
        first.Some? ==> first.value.agent == agent
    case _ => true
  }

  function FirstAffine(w: World, j: nat, agents: seq<nat>): (r: Option<nat>)
    requires j in w.jobs
    ensures r.Some? ==> r.value in agents && Affine(w, j, r.value)
    ensures r.None? ==> forall a :: a in agents ==> !Affine(w, j, a)
  {
    if agents == [] then None else if Affine(w, j, agents[0]) then Some(agents[0]) else FirstAffine(w, j, agents[1..])
  }

  function AgentFor(w: World, env: Surroundings, j: nat): Option<nat>
    requires j in w.jobs
  {
    if j in env.agents then FirstAffine(w, j, env.agents[j]) else None
  }

  ghost predicate GroupAllows(w: World, j: nat)
    requires j in w.jobs
  {
    match w.jobs[j].spec.group
    case Alone => true
    case InCollection(c) =>
      c in w.collections &&
      (w.collections[c].slurmArray || |ActiveAmong(w.jobs, w.collections[c].items)| < w.collections[c].maxActive)
    case InGraph(g) =>
      && g in w.graphs && |ActiveAmong(w.jobs, w.graphs[g].nodes)| < w.graphs[g].maxActive
      && Ready(w.jobs, w.graphs[g], j)
  }

  /** The job passes the claim query's filters. */
  ghost predicate Eligible(w: World, env: Surroundings, j: nat) {
    && !env.hold && j in w.jobs && w.jobs[j].life.Waiting? && w.jobs[j].desire == ToRun
    && w.jobs[j].spec.namespace in w.namespaces
    && |ActiveInNamespace(w.jobs, w.jobs[j].spec.namespace)| < w.namespaces[w.jobs[j].spec.namespace].maxActive
    && GroupAllows(w, j) && AgentFor(w, env, j).Some?
  }

  /** Never-dispatched namespaces first, then the one dispatched longest ago. */
  predicate SoonerCursor(a: Option<nat>, b: Option<nat>) {
    b.Some? && (a.None? || a.value < b.value)
  }

  /** The claim query's order: namespace cursor, submission time, id. */
  predicate Precedes(w: World, i: nat, j: nat)
    requires i in w.jobs && w.jobs[i].spec.namespace in w.namespaces
    requires j in w.jobs && w.jobs[j].spec.namespace in w.namespaces
  {
    var x, y := w.jobs[i].spec, w.jobs[j].spec;
    var a, b := w.namespaces[x.namespace].lastDispatched, w.namespaces[y.namespace].lastDispatched;
    || SoonerCursor(a, b)
    || (a == b && (x.createdAt < y.createdAt || (x.createdAt == y.createdAt && i < j)))
  }

  /** j is the row the claim query returns. */
  ghost predicate Claimed(w: World, env: Surroundings, j: nat) {
    Eligible(w, env, j) && forall i :: i != j && Eligible(w, env, i) ==> Precedes(w, j, i)
  }

  ghost predicate UnusedIds(w: World, execution: nat, delivery: nat) {
    forall j :: j in w.jobs && Dispatched(w.jobs[j].life) ==>
      w.jobs[j].life.dispatch.execution != execution && w.jobs[j].life.dispatch.delivery != delivery
  }

  ghost function Offer(w: World, env: Surroundings, j: nat, run: nat, execution: nat, delivery: nat, digest: nat,
      now: nat): World {
    if Claimed(w, env, j) && UnusedIds(w, execution, delivery) then
      var job := w.jobs[j];
      var ns := job.spec.namespace;
      var dispatch := Dispatch(run, execution, delivery, AgentFor(w, env, j).value, digest, now);
      w.(jobs := w.jobs[j := job.(revision := job.revision + 1, life := Offered(dispatch, 1))],
         namespaces := w.namespaces[ns := w.namespaces[ns].(lastDispatched := Some(now))])
    else w
  }

  // ----- acceptance

  datatype Identity = Identity(namespace: nat, agent: nat, generation: nat)

  datatype AcceptanceRequest = AcceptanceRequest(
    delivery: nat, execution: nat, agent: nat, generation: nat, effectiveDigest: nat, requestDigest: nat)

  datatype Authorization = Authorization(
    id: nat, execution: nat, agent: nat, generation: nat, digest: nat, revision: nat, acceptedAt: nat, replayed: bool)

  predicate AddressesJob(job: Job, namespace: nat) {
    Dispatched(job.life) && job.spec.namespace == namespace
  }

  /** The request names the execution, agent, generation and digest that were offered. */
  predicate Matching(job: Job, who: Identity, a: AcceptanceRequest)
    requires Dispatched(job.life)
  {
    && job.life.dispatch.execution == a.execution && job.life.dispatch.agent == who.agent && a.agent == who.agent
    && job.spec.generation == who.generation && a.generation == job.spec.generation
    && a.effectiveDigest == job.life.dispatch.digest
  }

  function Authorize(job: Job, revision: nat, at: nat, replayed: bool): Authorization
    requires Dispatched(job.life)
  {
    var d := job.life.dispatch;
    Authorization(d.delivery, d.execution, d.agent, job.spec.generation, d.digest, revision, at, replayed)
  }

  /** The decision on the row whose assignment has the requested delivery id. */
  function Decide(job: Job, who: Identity, a: AcceptanceRequest, now: nat): (Job, Result<Authorization>) {
    if !AddressesJob(job, who.namespace) || job.life.dispatch.delivery != a.delivery then (job, Err(NotFound))
    else if !Matching(job, who, a) then (job, Err(Forbidden))
    else if Authorized(job.life) then
      if job.life.acceptance.request != a.requestDigest then (job, Err(IdempotencyConflict))
      else (job, Ok(Authorize(job, job.life.revision, job.life.acceptance.at, true)))
    else if !job.life.Offered? || job.desire != ToRun then (job, Err(Conflict))
    else
      var revision := job.life.revision + 1;
      (job.(revision := job.revision + 1,
        life := Live(job.life.dispatch, Acceptance(now, a.requestDigest), false, revision, [])),
       Ok(Authorize(job, revision, now, false)))
  }

  function Accept(w: World, j: nat, who: Identity, a: AcceptanceRequest, now: nat): (World, Result<Authorization>) {
    if j !in w.jobs then (w, Err(NotFound)) else
      var (job, reply) := Decide(w.jobs[j], who, a, now);
      (w.(jobs := w.jobs[j := job]), reply)
  }

  // ----- cancellation of one job

  /** Unaccepted work ends at once; accepted work is asked to stop. */
  function CancelOne(job: Job): Job {
    match job.life
    case Waiting => job.(desire := ToCancel, revision := job.revision + 1, life := Dropped(Cancelled, None))
    case Offered(d, revision) =>
      job.(desire := ToCancel, revision := job.revision + 1, life := Withdrawn(d, revision + 1))
    case Live(_, _, _, _, _) => job.(desire := ToCancel, revision := job.revision + 1)
    case _ => job
  }

  /** Inserting a cancel action does nothing where the execution already has one. */
  function WithAction(actions: map<nat, ActionState>, job: Job): map<nat, ActionState> {
    if job.life.Live? && job.life.dispatch.execution !in actions
      then actions[job.life.dispatch.execution := Pending] else actions
  }

  /** Cancels one job unless it has ended. */
  function CancelRow(w: World, j: nat): World {
    if j !in w.jobs || Terminal(w.jobs[j].life) then w
    else w.(jobs := w.jobs[j := CancelOne(w.jobs[j])], actions := WithAction(w.actions, w.jobs[j]))
  }

  /** Cancels the unfinished jobs among ids, in order. */
  function CancelAll(w: World, ids: seq<nat>): World {
    if ids == [] then w else CancelRow(CancelAll(w, ids[..|ids| - 1]), ids[|ids| - 1])
  }

  // ----- completion

  /** Fail-fast: a member that did not succeed stops its unfinished siblings. */
  function StopSiblings(w: World, j: nat, c: nat): World
    requires j in w.jobs && c in w.collections
  {
    if w.collections[c].failFast && OutcomeOf(w.jobs[j].life) != Some(Success)
      then CancelAll(w, w.collections[c].items) else w
  }

  ghost function CompleteCollection(w: World, j: nat): World {
    if j !in w.jobs || !w.jobs[j].spec.group.InCollection? then w else
      var c := w.jobs[j].spec.group.collection;
      if c !in w.collections then w else
        var stopped := StopSiblings(w, j, c);
        stopped.(collections := stopped.collections[c := w.collections[c].(revision := w.collections[c].revision + 1)])
  }

  ghost function CompleteGraph(w: World, j: nat): World {
    if j !in w.jobs || !w.jobs[j].spec.group.InGraph? then w else
      var g := w.jobs[j].spec.group.graph;
      if g !in w.graphs then w else
        w.(jobs := Propagate(w.jobs, w.graphs[g]),
           graphs := w.graphs[g := w.graphs[g].(revision := w.graphs[g].revision + 1)])
  }

  // ----- execution events

  predicate IsScheduler(kind: EventKind) {
    kind.SchedulerUncertain? || kind.SchedulerSubmitted? || kind.SchedulerObserved? || kind.SchedulerCompleted?
  }

  predicate IsCompletion(kind: EventKind) {
    kind.ProcessCompleted? || kind.SchedulerCompleted?
  }

  /** Which events an accepted (not yet running) or running execution admits. */
  predicate ValidTransition(running: bool, kind: EventKind) {
    match kind
    case ProcessStarted => !running
    case ProcessCompleted => true
    case SchedulerCompleted => true
    case SchedulerUncertain => !running
    case SchedulerSubmitted => !running
    case SchedulerObserved => true
    case UnknownKind => false
  }

  /** One event applied to a live execution. */
  function Observe(life: Life, e: Event): Life
    requires life.Live?
  {
    if IsCompletion(e.kind) then Ended(life.dispatch, life.acceptance, e.outcome, life.revision + 1, life.events + [e])
    else Live(life.dispatch, life.acceptance, life.running || e.kind.ProcessStarted? || e.running, life.revision + 1,
      life.events + [e])
  }

  function EventNamed(events: seq<Event>, id: nat): (r: Option<Event>)
    ensures r.Some? ==> r.value in events && r.value.id == id
    ensures r.None? ==> forall e :: e in events ==> e.id != id
  {
    if events == [] then None else if events[0].id == id then Some(events[0]) else EventNamed(events[1..], id)
  }

  function EventsOf(life: Life): seq<Event> {
    if Authorized(life) then life.events else []
  }

  /** Event ids are a primary key over all executions. */
  ghost predicate EventIdTaken(w: World, id: nat) {
    exists j :: j in w.jobs && EventNamed(EventsOf(w.jobs[j].life), id).Some?
  }

  function StreamComplete(w: World, execution: nat, stream: string): nat {
    if (execution, stream) in w.logs && w.logs[(execution, stream)].row.Some? &&
       w.logs[(execution, stream)].row.value.state == Logs.Complete then 1 else 0
  }

  function CompleteStreams(w: World, execution: nat): nat {
    StreamComplete(w, execution, "stdout") + StreamComplete(w, execution, "stderr")
  }

  /** Every check on a new event of an addressed execution. */
  ghost predicate Admits(w: World, j: nat, e: Event)
    requires j in w.jobs
  {
    var job := w.jobs[j];
    && job.life.Live?
    && e.sequence == |job.life.events| + 1
    && job.spec.slurm == IsScheduler(e.kind) && (IsScheduler(e.kind) ==> e.slurm)
    && ValidTransition(job.life.running, e.kind)
    && (IsCompletion(e.kind) ==>
         e.artifactsMatch && (job.spec.logged ==> CompleteStreams(w, job.life.dispatch.execution) == 2))
  }

  ghost function Record(w: World, j: nat, who: Identity, e: Event): (World, Result<bool>) {
    if j !in w.jobs || !AddressesJob(w.jobs[j], who.namespace) then (w, Err(NotFound))
    else if w.jobs[j].life.dispatch.agent != who.agent || e.agent != who.agent then (w, Err(Forbidden))
    else
      var job := w.jobs[j];
      var existing := EventNamed(EventsOf(job.life), e.id);
      if existing.Some? then
        (w, if existing.value.digest != e.digest then Err(IdempotencyConflict) else Ok(true))
      else if !Admits(w, j, e) then (w, Err(Conflict))
      else if EventIdTaken(w, e.id) then (w, Err(Internal))
      else
        var next := w.(jobs := w.jobs[j := job.(revision := job.revision + 1, life := Observe(job.life, e))]);
        (if IsCompletion(e.kind) then CompleteGraph(CompleteCollection(next, j), j) else next, Ok(false))
  }

  // ----- cancellation requests

  ghost function CancelJob(w: World, j: nat): World {
    if j !in w.jobs || Terminal(w.jobs[j].life) || w.jobs[j].desire == ToCancel then w else
      var next := CancelRow(w, j);
      if Terminal(next.jobs[j].life) then CompleteGraph(next, j) else next
  }

  ghost function CancelGraph(w: World, g: nat): World {
    if g !in w.graphs then w else
      var next := CancelAll(w, w.graphs[g].nodes);
      next.(graphs := w.graphs[g := w.graphs[g].(revision := w.graphs[g].revision + 1)])
  }

  // ----- observations that change no phase

  function Acknowledge(w: World, j: nat, who: Identity): World {
    if j in w.jobs && AddressesJob(w.jobs[j], who.namespace) && w.jobs[j].life.dispatch.agent == who.agent &&
       w.jobs[j].life.dispatch.execution in w.actions
    then w.(actions := w.actions[w.jobs[j].life.dispatch.execution := Acknowledged]) else w
  }

  function Refreshed(life: Life): Life
    requires life.Live?
  {
    Live(life.dispatch, life.acceptance, life.running, life.revision + 1, life.events)
  }

  /** Stale observation raises the revisions and nothing else. */
  function MarkStale(w: World, j: nat): World {
    if j in w.jobs && w.jobs[j].life.Live? then
      w.(jobs := w.jobs[j := w.jobs[j].(revision := w.jobs[j].revision + 1, life := Refreshed(w.jobs[j].life))])
    else w
  }

  function TableOf(w: World, execution: nat, stream: string): Logs.Table {
    if (execution, stream) in w.logs then w.logs[(execution, stream)] else Logs.EMPTY
  }

  /** What a log commit reads about an execution. */
  function LogView(job: Job, store: string, version: Logs.Int64, keyPrefix: string): Logs.Execution
    requires Dispatched(job.life)
  {
    Logs.Execution(job.life.dispatch.agent, job.life.Offered?, store, version, keyPrefix)
  }

  function CommitLog(w: World, j: nat, agent: nat, store: string, version: Logs.Int64, keyPrefix: string,
      c: Logs.Chunk): World {
    if j !in w.jobs || !Dispatched(w.jobs[j].life) then w else
      var execution := w.jobs[j].life.dispatch.execution;
      var (table, reply) :=
        Logs.Commit(TableOf(w, execution, c.stream), Some(LogView(w.jobs[j], store, version, keyPrefix)), agent, c);
      if reply.Err? then w else w.(logs := w.logs[(execution, c.stream) := table])
  }

  // ----- steps and runs

  datatype Step =
    | SubmitJobStep(id: nat, spec: Spec)
    | SubmitCollectionStep(c: nat, ids: seq<nat>, specs: seq<Spec>, maxActive: nat, failFast: bool, slurmArray: bool)
    | SubmitGraphStep(g: nat, request: Requests.Request, ids: seq<nat>, specs: seq<Spec>)
    | OfferStep(env: Surroundings, j: nat, run: nat, execution: nat, delivery: nat, digest: nat, now: nat)
    | AcceptStep(j: nat, who: Identity, acceptance: AcceptanceRequest, now: nat)
    | RecordStep(j: nat, who: Identity, event: Event)
    | CancelJobStep(j: nat)
    | CancelGraphStep(g: nat)
    | AcknowledgeStep(j: nat, who: Identity)
    | MarkStaleStep(j: nat)
    | CommitLogStep(j: nat, agent: nat, store: string, version: Logs.Int64, keyPrefix: string, chunk: Logs.Chunk)

  ghost function Apply(w: World, s: Step): World {
    match s
    case SubmitJobStep(id, spec) => SubmitJob(w, id, spec)
    case SubmitCollectionStep(c, ids, specs, m, f, a) => SubmitCollection(w, c, ids, specs, m, f, a)
    case SubmitGraphStep(g, r, ids, specs) => SubmitGraph(w, g, r, ids, specs)
    case OfferStep(env, j, run, execution, delivery, digest, now) =>
      Offer(w, env, j, run, execution, delivery, digest, now)
    case AcceptStep(j, who, a, now) => Accept(w, j, who, a, now).0
    case RecordStep(j, who, e) => Record(w, j, who, e).0
    case CancelJobStep(j) => CancelJob(w, j)
    case CancelGraphStep(g) => CancelGraph(w, g)
    case AcknowledgeStep(j, who) => Acknowledge(w, j, who)
    case MarkStaleStep(j) => MarkStale(w, j)
    case CommitLogStep(j, agent, store, version, prefix, c) => CommitLog(w, j, agent, store, version, prefix, c)
  }

  /** The world after a run of steps. */
  ghost function Run(w: World, steps: seq<Step>): World {
    if steps == [] then w else Apply(Run(w, steps[..|steps| - 1]), steps[|steps| - 1])
  }

  function Empty(namespaces: map<nat, NamespacePolicy>): World {
    World(map[], map[], map[], map[], namespaces, map[])
  }
}
