/** The job, run, execution and assignment rows of one job, and the updates each transaction makes to them.

    The schema allows at most one run per job, one execution per run and one assignment per execution, so
    the four rows of a job are kept together; a missing row is a row not yet inserted. */
module Tables {
  import opened Base
  import opened Domain
  import opened ControlPlane
  import opened Invariants

  datatype JobPhase = JobAccepted | JobAssigning | JobAcceptedExecution | JobRunning | JobTerminal
  datatype RunPhase = RunAssigning | RunAccepted | RunRunning | RunTerminal
  datatype ExecutionPhase = Planned | ExecutionAccepted | ExecutionRunning | ExecutionTerminal
  datatype AssignmentState = AssignmentOffered | AssignmentAccepted | AssignmentWithdrawn

  datatype JobRow = JobRow(
    spec: Spec, phase: JobPhase, desire: Desire, outcome: Option<Outcome>, disposition: Option<Disposition>,
      revision: nat)
  datatype RunRow = RunRow(id: nat, phase: RunPhase, desire: Desire, outcome: Option<Outcome>)
  datatype ExecutionRow = ExecutionRow(
    id: nat, agent: nat, digest: nat, createdAt: nat, phase: ExecutionPhase, outcome: Option<Outcome>,
    revision: nat, acceptedAt: Option<nat>, lastSequence: nat)
  datatype AssignmentRow = AssignmentRow(
    id: nat, agent: nat, state: AssignmentState, acceptedAt: Option<nat>, acceptanceDigest: Option<nat>)

  datatype Rows = Rows(
    job: JobRow, run: Option<RunRow>, execution: Option<ExecutionRow>, assignment: Option<AssignmentRow>,
      events: seq<Event>)

  // ----- the lifecycle value behind the rows

  /** The rows that a lifecycle value stands for. */
  function RowsOf(job: Job): Rows {
    match job.life
    case Waiting =>
      Rows(JobRow(job.spec, JobAccepted, job.desire, None, None, job.revision), None, None, None, [])
    case Offered(d, revision) =>
      Rows(JobRow(job.spec, JobAssigning, job.desire, None, None, job.revision),
           Some(RunRow(d.run, RunAssigning, job.desire, None)),
           Some(ExecutionRow(d.execution, d.agent, d.digest, d.at, Planned, None, revision, None, 0)),
           Some(AssignmentRow(d.delivery, d.agent, AssignmentOffered, None, None)), [])
    case Live(d, a, running, revision, events) =>
      Rows(JobRow(job.spec, if running then JobRunning else JobAcceptedExecution, job.desire, None, None, job.revision),
           Some(RunRow(d.run, if running then RunRunning else RunAccepted, job.desire, None)),
           Some(ExecutionRow(d.execution, d.agent, d.digest, d.at,
             if running then ExecutionRunning else ExecutionAccepted, None,
                             revision, Some(a.at), |events|)),
           Some(AssignmentRow(d.delivery, d.agent, AssignmentAccepted, Some(a.at), Some(a.request))), events)
    case Ended(d, a, outcome, revision, events) =>
      Rows(JobRow(job.spec, JobTerminal, job.desire, Some(outcome), None, job.revision),
           Some(RunRow(d.run, RunTerminal, job.desire, Some(outcome))),
           Some(ExecutionRow(d.execution, d.agent, d.digest, d.at, ExecutionTerminal, Some(outcome), revision,
             Some(a.at), |events|)),
           Some(AssignmentRow(d.delivery, d.agent, AssignmentAccepted, Some(a.at), Some(a.request))), events)
    case Withdrawn(d, revision) =>
      Rows(JobRow(job.spec, JobTerminal, job.desire, Some(Cancelled), None, job.revision),
           Some(RunRow(d.run, RunTerminal, job.desire, Some(Cancelled))),
           Some(ExecutionRow(d.execution, d.agent, d.digest, d.at, ExecutionTerminal, Some(Cancelled), revision,
             None, 0)),
           Some(AssignmentRow(d.delivery, d.agent, AssignmentWithdrawn, None, None)), [])
    case Dropped(outcome, disposition) =>
      Rows(JobRow(job.spec, JobTerminal, job.desire, Some(outcome), disposition, job.revision), None, None, None, [])
  }

  /** Reads the lifecycle back from any rows, coupled or not. */
  function LifeOf(r: Rows): Life {
    if r.run.None? || r.execution.None? || r.assignment.None? then
      if r.job.outcome.Some? then Dropped(r.job.outcome.value, r.job.disposition) else Waiting
    else
      var e, a := r.execution.value, r.assignment.value;
      var d := Dispatch(r.run.value.id, e.id, a.id, e.agent, e.digest, e.createdAt);
      match a.state
      case AssignmentOffered => Offered(d, e.revision)
      case AssignmentWithdrawn => Withdrawn(d, e.revision)
      case AssignmentAccepted =>
        if a.acceptedAt.None? || a.acceptanceDigest.None? then Offered(d, e.revision) else
          var accepted := Acceptance(a.acceptedAt.value, a.acceptanceDigest.value);
          if e.outcome.Some? then Ended(d, accepted, e.outcome.value, e.revision, r.events)
          else Live(d, accepted, e.phase == ExecutionRunning, e.revision, r.events)
  }

  function JobOf(r: Rows): Job {
    Job(r.job.spec, r.job.desire, r.job.revision, LifeOf(r))
  }

  /** The four rows are in step: they are those of some lifecycle value. */
  predicate Coupled(r: Rows) {
    r == RowsOf(JobOf(r))
  }

  /** Nothing is lost either way. */
  lemma RowsRoundTrip(job: Job)
    ensures JobOf(RowsOf(job)) == job && Coupled(RowsOf(job))
  {
  }

  datatype Phases = Phases(job: JobPhase, run: Option<RunPhase>, execution: Option<ExecutionPhase>,
      assignment: Option<AssignmentState>)

  function PhasesOf(r: Rows): Phases {
    Phases(r.job.phase, if r.run.Some? then Some(r.run.value.phase) else None,
           if r.execution.Some? then Some(r.execution.value.phase) else None,
           if r.assignment.Some? then Some(r.assignment.value.state) else None)
  }

  /** The seven combinations of phases that occur. */
  const COMBINATIONS: set<Phases> := {
    Phases(JobAccepted, None, None, None),
    Phases(JobAssigning, Some(RunAssigning), Some(Planned), Some(AssignmentOffered)),
    Phases(JobAcceptedExecution, Some(RunAccepted), Some(ExecutionAccepted), Some(AssignmentAccepted)),
    Phases(JobRunning, Some(RunRunning), Some(ExecutionRunning), Some(AssignmentAccepted)),
    Phases(JobTerminal, Some(RunTerminal), Some(ExecutionTerminal), Some(AssignmentAccepted)),
    Phases(JobTerminal, Some(RunTerminal), Some(ExecutionTerminal), Some(AssignmentWithdrawn)),
    Phases(JobTerminal, None, None, None)}

  /** Coupled rows show one of them; they carry an outcome exactly when terminal, the same in every row. */
  lemma CoupledPhases(r: Rows)
    requires Coupled(r)
    ensures PhasesOf(r) in COMBINATIONS
    ensures r.job.phase == JobTerminal <==> r.job.outcome.Some?
    ensures r.run.Some? ==> r.run.value.outcome == r.job.outcome && r.run.value.desire == r.job.desire
    ensures r.execution.Some? ==>
      r.execution.value.outcome == r.job.outcome && r.execution.value.lastSequence == |r.events|
    ensures r.assignment.Some? ==> r.execution.Some? && r.assignment.value.acceptedAt == r.execution.value.acceptedAt
    ensures Terminal(LifeOf(r)) <==> r.job.phase == JobTerminal
    ensures OutcomeOf(LifeOf(r)) == r.job.outcome
  {
  }

  function JobRank(p: JobPhase): nat {
    match p
    case JobAccepted => 0
    case JobAssigning => 1
    case JobAcceptedExecution => 2
    case JobRunning => 3
    case JobTerminal => 4
  }

  function RunRank(p: Option<RunPhase>): nat {
    match p
    case None => 0
    case Some(RunAssigning) => 1
    case Some(RunAccepted) => 2
    case Some(RunRunning) => 3
    case Some(RunTerminal) => 4
  }

  function ExecutionRank(p: Option<ExecutionPhase>): nat {
    match p
    case None => 0
    case Some(Planned) => 1
    case Some(ExecutionAccepted) => 2
    case Some(ExecutionRunning) => 3
    case Some(ExecutionTerminal) => 4
  }

  function AssignmentRank(p: Option<AssignmentState>): nat {
    match p
    case None => 0
    case Some(AssignmentOffered) => 1
    case Some(AssignmentAccepted) => 2
    case Some(AssignmentWithdrawn) => 2
  }

  ghost predicate Forward(p: Phases, q: Phases) {
    && JobRank(p.job) <= JobRank(q.job) && RunRank(p.run) <= RunRank(q.run)
    && ExecutionRank(p.execution) <= ExecutionRank(q.execution)
         && AssignmentRank(p.assignment) <= AssignmentRank(q.assignment)
    && (p.assignment in {Some(AssignmentAccepted), Some(AssignmentWithdrawn)} ==> q.assignment == p.assignment)
  }

  lemma LaterIsForward(a: Job, b: Job)
    requires Later(a, b)
    ensures Forward(PhasesOf(RowsOf(a)), PhasesOf(RowsOf(b)))
  {
  }

  /** Along every run the four phases stay coupled and never move backwards, and a terminal job's
      rows never change again. */
  lemma PhasesAdvance(namespaces: map<nat, NamespacePolicy>, steps: seq<Step>, more: seq<Step>, j: nat)
    requires j in Run(Empty(namespaces), steps).jobs
    ensures j in Run(Empty(namespaces), steps + more).jobs
    ensures var before, after :=
      RowsOf(Run(Empty(namespaces), steps).jobs[j]), RowsOf(Run(Empty(namespaces), steps + more).jobs[j]);
      && PhasesOf(after) in COMBINATIONS && Forward(PhasesOf(before), PhasesOf(after))
      && (before.job.phase == JobTerminal ==> after == before && before.job.outcome.Some?)
  {
    RunOnward(Empty(namespaces), steps, more);
    var a, b := Run(Empty(namespaces), steps).jobs[j], Run(Empty(namespaces), steps + more).jobs[j];
    LaterIsForward(a, b);
    RowsRoundTrip(a);
    RowsRoundTrip(b);
    CoupledPhases(RowsOf(a));
    CoupledPhases(RowsOf(b));
  }

  // ----- updates of one job's rows, statement by statement

  /** The statements of an acceptance: assignment, execution, run, job, each guarded by the phase it expects. */
  method AcceptRows(rows: Rows, who: Identity, request: AcceptanceRequest, now: nat)
    returns (after: Rows, reply: Result<Authorization>)
    requires Coupled(rows)
    ensures Coupled(after) && (JobOf(after), reply) == Decide(JobOf(rows), who, request, now)
  {
    var r := rows;
    if r.assignment.None? || r.execution.None? || r.run.None? || r.assignment.value.id != request.delivery
      || r.job.spec.namespace != who.namespace {
      return rows, Err(NotFound);
    }
    var a, e := r.assignment.value, r.execution.value;
    if e.id != request.execution || a.agent != who.agent || request.agent != who.agent
      || r.job.spec.generation != who.generation || request.generation != r.job.spec.generation
      || request.effectiveDigest != e.digest {
      return rows, Err(Forbidden);
    }
    if a.state == AssignmentAccepted {
      if a.acceptanceDigest != Some(request.requestDigest)
        || a.acceptedAt.None? { return rows, Err(IdempotencyConflict); }
      return rows,
        Ok(Authorization(a.id, e.id, a.agent, r.job.spec.generation, e.digest, e.revision, a.acceptedAt.value, true));
    }
    if a.state != AssignmentOffered || r.job.desire != ToRun { return rows, Err(Conflict); }
    if a.state == AssignmentOffered {
      r := r.(assignment :=
        Some(a.(state := AssignmentAccepted, acceptedAt := Some(now),
          acceptanceDigest := Some(request.requestDigest))));
    }
    var revision := e.revision + 1;
    if e.phase == Planned {
      r := r.(execution := Some(e.(phase := ExecutionAccepted, revision := revision, acceptedAt := Some(now))));
    }
    if r.run.value.phase == RunAssigning {
      r := r.(run := Some(r.run.value.(phase := RunAccepted)));
    }
    if r.job.phase == JobAssigning {
      r := r.(job := r.job.(phase := JobAcceptedExecution, revision := r.job.revision + 1));
    }
    return r, Ok(Authorization(a.id, e.id, a.agent, r.job.spec.generation, e.digest, revision, now, false));
  }

  /** The statements an admitted event makes: append it, then update execution, run and job by its type. */
  method ObserveRows(rows: Rows, e: Event) returns (after: Rows)
    requires Coupled(rows) && LifeOf(rows).Live? && e.sequence == |rows.events| + 1
    requires ValidTransition(LifeOf(rows).running, e.kind)
    ensures Coupled(after)
    ensures IsCompletion(e.kind) ==> after.job.phase == JobTerminal && after.job.outcome == Some(e.outcome)
    ensures JobOf(after) == JobOf(rows).(revision := rows.job.revision + 1, life := Observe(LifeOf(rows), e))
  {
    var r := rows.(events := rows.events + [e]);
    var x := r.execution.value;
    if e.kind == ProcessStarted {
      r := r.(execution := Some(x.(phase := ExecutionRunning, lastSequence := e.sequence, revision := x.revision + 1)));
      r := r.(run := Some(r.run.value.(phase := RunRunning)));
      r := r.(job := r.job.(phase := JobRunning, revision := r.job.revision + 1));
    } else if e.kind == ProcessCompleted || e.kind == SchedulerCompleted {
      r := r.(execution :=
        Some(x.(phase := ExecutionTerminal, outcome := Some(e.outcome), lastSequence := e.sequence,
          revision := x.revision + 1)));
      r := r.(run := Some(r.run.value.(phase := RunTerminal, outcome := Some(e.outcome))));
      r := r.(job := r.job.(phase := JobTerminal, outcome := Some(e.outcome), revision := r.job.revision + 1));
    } else {
      r := r.(execution :=
        Some(x.(phase := if e.running then ExecutionRunning else x.phase, lastSequence := e.sequence,
          revision := x.revision + 1)));
      if e.running {
        if r.run.value.phase == RunAccepted { r := r.(run := Some(r.run.value.(phase := RunRunning))); }
        r := r.(job := r.job.(phase := JobRunning, revision := r.job.revision + 1));
      } else {
        r := r.(job := r.job.(revision := r.job.revision + 1));
      }
    }
    return r;
  }

  /** The three ways a cancellation touches a job: not dispatched, offered, or with an agent. */
  method CancelRows(rows: Rows) returns (after: Rows, act: Option<nat>)
    requires Coupled(rows) && rows.job.phase != JobTerminal
    ensures Coupled(after) && JobOf(after) == CancelOne(JobOf(rows))
    ensures act == if LifeOf(rows).Live? then Some(LifeOf(rows).dispatch.execution) else None
  {
    var r := rows;
    act := None;
    if r.execution.None? {
      r := r.(job :=
        r.job.(phase := JobTerminal, desire := ToCancel, outcome := Some(Cancelled), revision := r.job.revision + 1));
    } else if r.execution.value.phase == Planned {
      if r.assignment.value.state == AssignmentOffered {
        r := r.(assignment := Some(r.assignment.value.(state := AssignmentWithdrawn)));
      }
      var x := r.execution.value;
      r := r.(execution :=
        Some(x.(phase := ExecutionTerminal, outcome := Some(Cancelled), revision := x.revision + 1)));
      r := r.(run := Some(r.run.value.(phase := RunTerminal, desire := ToCancel, outcome := Some(Cancelled))));
      r := r.(job :=
        r.job.(phase := JobTerminal, desire := ToCancel, outcome := Some(Cancelled), revision := r.job.revision + 1));
    } else {
      act := Some(r.execution.value.id);
      r := r.(run := Some(r.run.value.(desire := ToCancel)));
      r := r.(job := r.job.(desire := ToCancel, revision := r.job.revision + 1));
    }
    return r, act;
  }

  /** The inserts of an offer, and the update that loses the race if the job has moved on. */
  method OfferRows(rows: Rows, d: Dispatch) returns (ok: bool, after: Rows)
    requires Coupled(rows)
    ensures ok <==> LifeOf(rows).Waiting? && rows.job.desire == ToRun
    ensures Coupled(after)
    ensures JobOf(after) == if ok
      then JobOf(rows).(revision := rows.job.revision + 1, life := Offered(d, 1)) else JobOf(rows)
  {
    if rows.run.Some? || rows.job.phase != JobAccepted || rows.job.desire != ToRun { return false, rows; }
    var r := rows.(run := Some(RunRow(d.run, RunAssigning, ToRun, None)));
    r := r.(execution := Some(ExecutionRow(d.execution, d.agent, d.digest, d.at, Planned, None, 1, None, 0)));
    r := r.(assignment := Some(AssignmentRow(d.delivery, d.agent, AssignmentOffered, None, None)));
    r := r.(job := r.job.(phase := JobAssigning, revision := r.job.revision + 1));
    return true, r;
  }

  /** The updates that note a stale observation of an accepted or running execution. */
  method StaleRows(rows: Rows) returns (after: Rows)
    requires Coupled(rows) && LifeOf(rows).Live?
    ensures Coupled(after)
    ensures JobOf(after) == JobOf(rows).(revision := rows.job.revision + 1, life := Refreshed(LifeOf(rows)))
  {
    var r := rows.(execution := Some(rows.execution.value.(revision := rows.execution.value.revision + 1)));
    return r.(job := r.job.(revision := r.job.revision + 1));
  }
}
