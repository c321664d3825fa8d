/** The work items of the control plane.

    Identifiers, digests and instants are opaque labels, so natural numbers stand for them. A job has at
    most one run, a run one execution and an execution one assignment (each is unique per parent in the
    schema), so the four rows advance as one lifecycle, held here as a single value. */
module Domain {
  import opened Base

  datatype Outcome = Success | Failure | Cancelled | TimedOut | Aborted | Lost

  datatype Desire = ToRun | ToCancel

  /** Why a graph node ended without being dispatched. */
  datatype Disposition = Skipped | CancelledByPolicy | Blocked

  datatype Policy = SkipUnsatisfied | CancelUnsatisfied | BlockUnsatisfied

  datatype Condition = OnSuccess | OnFailure | AnyTerminal | OnOutcomes

  datatype Edge = Edge(upstream: nat, downstream: nat, condition: Condition, outcomes: seq<Outcome>)

  datatype Graph = Graph(nodes: seq<nat>, edges: seq<Edge>, policy: Policy, maxActive: nat, revision: nat)

  datatype Collection = Collection(items: seq<nat>, maxActive: nat, failFast: bool, slurmArray: bool, revision: nat)

  datatype Group = Alone | InGraph(graph: nat) | InCollection(collection: nat)

  /** Columns fixed at submission: `logged` says the target's generation names a log store. */
  datatype Spec = Spec(namespace: nat, group: Group, createdAt: nat, generation: nat, slurm: bool, logged: bool)

  /** Columns fixed when work is offered to an agent. */
  datatype Dispatch = Dispatch(run: nat, execution: nat, delivery: nat, agent: nat, digest: nat, at: nat)

  /** The committed launch decision: its instant and the digest of the acceptance request. */
  datatype Acceptance = Acceptance(at: nat, request: nat)

  datatype EventKind =
    | ProcessStarted | ProcessCompleted
    | SchedulerUncertain | SchedulerSubmitted | SchedulerObserved | SchedulerCompleted
    | UnknownKind

  /** An agent's observation. `running` says the scheduler state it carries is "running"; `artifactsMatch`
      is the verdict of the artifact publication check. */
  datatype Event = Event(
    id: nat, agent: nat, sequence: int, kind: EventKind, outcome: Outcome,
    running: bool, slurm: bool, artifactsMatch: bool, digest: nat)

  datatype Life =
    | Waiting
    | Offered(dispatch: Dispatch, revision: nat)
    | Live(dispatch: Dispatch, acceptance: Acceptance, running: bool, revision: nat, events: seq<Event>)
    | Ended(dispatch: Dispatch, acceptance: Acceptance, outcome: Outcome, revision: nat, events: seq<Event>)
    | Withdrawn(dispatch: Dispatch, revision: nat)
    | Dropped(outcome: Outcome, disposition: Option<Disposition>)

  datatype Job = Job(spec: Spec, desire: Desire, revision: nat, life: Life)

  predicate Terminal(life: Life) {
    life.Ended? || life.Withdrawn? || life.Dropped?
  }

  /** Neither waiting nor terminal: the jobs a concurrency limit counts. */
  predicate Active(life: Life) {
    life.Offered? || life.Live?
  }

  predicate Dispatched(life: Life) {
    !life.Waiting? && !life.Dropped?
  }

  /** An agent holds, or held, an authorization to launch. */
  predicate Authorized(life: Life) {
    life.Live? || life.Ended?
  }

  function OutcomeOf(life: Life): Option<Outcome> {
    match life
    case Ended(_, _, outcome, _, _) => Some(outcome)
    case Withdrawn(_, _) => Some(Cancelled)
    case Dropped(outcome, _) => Some(outcome)
    case _ => None
  }

  /** waiting < offered < accepted < running < terminal */
  function Rank(life: Life): nat {
    match life
    case Waiting => 0
    case Offered(_, _) => 1
    case Live(_, _, running, _, _) => if running then 3 else 2
    case _ => 4
  }
}
