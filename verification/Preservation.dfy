/** Each transaction keeps the invariant of the world. */
module Preservation {
  import opened Base
  import opened Domain
  import opened Propagation
  import opened ControlPlane
  import opened Invariants
  import Logs = LogAssembly

  // ----- what cancellation of a list of jobs does

  lemma {:induction false} CancelAllElsewhere(w: World, ids: seq<nat>)
    ensures forall j :: j in w.jobs && j !in ids ==>
      j in CancelAll(w, ids).jobs && CancelAll(w, ids).jobs[j] == w.jobs[j]
  {
    if ids != [] { CancelAllElsewhere(w, ids[..|ids| - 1]); }
  }

  /** Ended, or live and asked to stop with a cancel action filed. */
  ghost predicate Stopped(v: World, j: nat) {
    j in v.jobs && (Terminal(v.jobs[j].life) ||
      (v.jobs[j].life.Live? && v.jobs[j].desire == ToCancel && v.jobs[j].life.dispatch.execution in v.actions))
  }

  lemma CancelRowStops(w: World, j: nat, i: nat)
    requires i in w.jobs && (i == j || Stopped(w, i))
    ensures Stopped(CancelRow(w, j), i)
  {
  }

  lemma {:induction false} CancelAllStops(w: World, ids: seq<nat>)
    ensures forall j :: j in w.jobs && j in ids ==> Stopped(CancelAll(w, ids), j)
  {
    if ids != [] {
      var n := |ids| - 1;
      CancelAllStops(w, ids[..n]);
      CancelAllSettling(w, ids[..n]);
      forall j | j in w.jobs && j in ids ensures Stopped(CancelRow(CancelAll(w, ids[..n]), ids[n]), j) {
        if j != ids[n] { assert j in ids[..n]; }
        CancelRowStops(CancelAll(w, ids[..n]), ids[n], j);
      }
    }
  }

  lemma {:induction false} CancelAllJobsOk(w: World, ids: seq<nat>)
    requires JobsOk(w)
    ensures JobsOk(CancelAll(w, ids))
  {
    if ids != [] {
      var before := CancelAll(w, ids[..|ids| - 1]);
      var j := ids[|ids| - 1];
      CancelAllJobsOk(w, ids[..|ids| - 1]);
      if j in before.jobs { CancelOneOk(before.jobs[j]); }
    }
  }

  /** Rewriting one job and filing at most its own action. */
  lemma RowActions(w: World, v: World, j: nat)
    requires ActionsOk(w) && UniqueIds(w) && j in w.jobs && Dispatched(w.jobs[j].life)
    requires j in v.jobs && v.jobs == w.jobs[j := v.jobs[j]] && Quiet(w.jobs[j], v.jobs[j])
    requires v.actions == w.actions || v.actions == w.actions[w.jobs[j].life.dispatch.execution := Pending]
    requires var x := w.jobs[j].life.dispatch.execution;
      && (x in v.actions ==> Authorized(v.jobs[j].life) && v.jobs[j].desire == ToCancel)
      && (v.jobs[j].life.Live? && v.jobs[j].desire == ToCancel ==> x in v.actions)
    ensures ActionsOk(v)
  {
    var x := w.jobs[j].life.dispatch.execution;
    forall y | y in v.actions ensures Owned(v, y) {
      if y == x { assert v.jobs[j].life.dispatch.execution == x; }
      else {
        assert Owned(w, y);
        var i :| i in w.jobs && Dispatched(w.jobs[i].life) && w.jobs[i].life.dispatch.execution == y;
        assert i != j && v.jobs[i] == w.jobs[i];
      }
    }
  }

  /** Jobs that were never dispatched have nothing to do with actions. */
  lemma UndispatchedActions(w: World, v: World)
    requires ActionsOk(w) && v.actions == w.actions && w.jobs.Keys <= v.jobs.Keys
    requires forall j :: j in v.jobs && Dispatched(v.jobs[j].life) ==> j in w.jobs && v.jobs[j] == w.jobs[j]
    requires forall j :: j in w.jobs && Dispatched(w.jobs[j].life) ==> v.jobs[j] == w.jobs[j]
    ensures ActionsOk(v)
  {
    forall y | y in v.actions ensures Owned(v, y) {
      assert Owned(w, y);
      var i :| i in w.jobs && Dispatched(w.jobs[i].life) && w.jobs[i].life.dispatch.execution == y;
      assert v.jobs[i] == w.jobs[i];
    }
  }

  lemma CancelRowActions(w: World, j: nat)
    requires ActionsOk(w) && UniqueIds(w)
    ensures ActionsOk(CancelRow(w, j))
  {
    if j in w.jobs && !Terminal(w.jobs[j].life) {
      if w.jobs[j].life.Waiting? { UndispatchedActions(w, CancelRow(w, j)); }
      else { RowActions(w, CancelRow(w, j), j); }
    }
  }

  lemma {:induction false} CancelAllActions(w: World, ids: seq<nat>)
    requires ActionsOk(w) && UniqueIds(w) && GraphsSafe(w) && CollectionsSafe(w)
    ensures ActionsOk(CancelAll(w, ids))
  {
    if ids != [] {
      var before := CancelAll(w, ids[..|ids| - 1]);
      var j := ids[|ids| - 1];
      CancelAllActions(w, ids[..|ids| - 1]);
      CancelAllSettling(w, ids[..|ids| - 1]);
      SettlingSafe(w, before);
      CancelRowActions(before, j);
    }
  }

  lemma PropagateJobsOk(jobs: Jobs, g: Graph)
    requires forall j :: j in jobs ==> JobOk(jobs[j])
    ensures forall j :: j in Propagate(jobs, g) ==> JobOk(Propagate(jobs, g)[j])
  {
    PropagateEffect(jobs, g);
    forall j | j in jobs ensures JobOk(Propagate(jobs, g)[j]) {
      assert DisposedRightly(jobs, Propagate(jobs, g), g, j);
      DisposedOk(g.policy, jobs[j]);
    }
  }

  lemma PropagateElsewhere(jobs: Jobs, g: Graph, j: nat)
    requires j in jobs && (j !in g.nodes || !jobs[j].life.Waiting?)
    ensures j in Propagate(jobs, g) && Propagate(jobs, g)[j] == jobs[j]
  {
    PropagateEffect(jobs, g);
    assert DisposedRightly(jobs, Propagate(jobs, g), g, j);
  }

  lemma CompleteGraphActions(w: World, j: nat)
    requires ActionsOk(w)
    ensures ActionsOk(CompleteGraph(w, j))
  {
    var v := CompleteGraph(w, j);
    if v != w {
      var g := w.graphs[w.jobs[j].spec.group.graph];
      CompleteGraphSettling(w, j);
      forall k | k in w.jobs && Dispatched(w.jobs[k].life)
        ensures v.jobs[k] == w.jobs[k]
      {
        PropagateElsewhere(w.jobs, g, k);
      }
      forall k | k in v.jobs && Dispatched(v.jobs[k].life) ensures v.jobs[k] == w.jobs[k] {
        assert Quiet(w.jobs[k], v.jobs[k]);
        PropagateElsewhere(w.jobs, g, k);
      }
      UndispatchedActions(w, v);
    }
  }

  // ----- settledness

  ghost predicate Untouched(w: World, v: World, g: nat)
    requires g in w.graphs
  {
    forall j :: j in w.graphs[g].nodes ==> j in w.jobs && j in v.jobs && SameStanding(w.jobs[j].life, v.jobs[j].life)
  }

  lemma UntouchedSettled(w: World, v: World, g: nat)
    requires g in w.graphs && g in v.graphs && SameGraph(w.graphs[g], v.graphs[g])
    requires Edges(w.graphs[g]) && Settled(w.jobs, w.graphs[g]) && Untouched(w, v, g)
    ensures Settled(v.jobs, v.graphs[g])
  {
    StandingKeepsSettled(w.jobs, v.jobs, w.graphs[g]);
    forall j | j in v.graphs[g].nodes ensures !Stuck(v.jobs, v.graphs[g], j) { assert !Stuck(v.jobs, w.graphs[g], j); }
  }

  lemma StandingSettled(w: World, v: World)
    requires Linked(w) && GraphsSettled(w) && Settling(w, v)
    requires forall j :: j in w.jobs ==> SameStanding(w.jobs[j].life, v.jobs[j].life)
    ensures GraphsSettled(v)
  {
    forall g | g in v.graphs ensures Settled(v.jobs, v.graphs[g]) {
      assert GraphLinked(w, g);
      UntouchedSettled(w, v, g);
    }
  }

  /** Settledness does not depend on a graph's revision. */
  lemma SameGraphSettled(jobs: Jobs, a: Graph, b: Graph)
    requires SameGraph(a, b) && Settled(jobs, a)
    ensures Settled(jobs, b)
  {
    forall k | k in b.nodes ensures !Stuck(jobs, b, k) { assert !Stuck(jobs, a, k); }
  }

  lemma OwnGraphSettles(w: World, j: nat, g: nat)
    requires j in w.jobs && w.jobs[j].spec.group == InGraph(g) && g in w.graphs
    ensures Settled(CompleteGraph(w, j).jobs, CompleteGraph(w, j).graphs[g])
  {
    PropagateSettles(w.jobs, w.graphs[g]);
    SameGraphSettled(CompleteGraph(w, j).jobs, w.graphs[g], CompleteGraph(w, j).graphs[g]);
  }

  lemma OtherGraphUntouched(w: World, j: nat, g: nat)
    requires Linked(w) && j in w.jobs && g in w.graphs && w.jobs[j].spec.group != InGraph(g)
    ensures forall k :: k in w.graphs[g].nodes ==>
      k in w.jobs && k in CompleteGraph(w, j).jobs && CompleteGraph(w, j).jobs[k] == w.jobs[k]
  {
    assert GraphLinked(w, g);
    if w.jobs[j].spec.group.InGraph? {
      var other := w.jobs[j].spec.group.graph;
      forall k | k in w.graphs[g].nodes && other in w.graphs
        ensures k in w.jobs && k in CompleteGraph(w, j).jobs && CompleteGraph(w, j).jobs[k] == w.jobs[k]
      {
        assert GraphLinked(w, other);
        PropagateElsewhere(w.jobs, w.graphs[other], k);
      }
    }
  }

  /** Completing a graph's node settles that graph and leaves the others alone. */
  lemma CompleteGraphSettles(u: World, w: World, j: nat)
    requires Linked(u) && GraphsSettled(u) && Settling(u, w) && j in u.jobs
    requires forall k :: k in u.jobs && k != j && u.jobs[k].spec.group.InGraph? ==> w.jobs[k] == u.jobs[k]
    ensures GraphsSettled(CompleteGraph(w, j))
  {
    var v := CompleteGraph(w, j);
    SettlingLinked(u, w);
    CompleteGraphSettling(w, j);
    assert Quiet(u.jobs[j], w.jobs[j]);
    forall g | g in v.graphs ensures Settled(v.jobs, v.graphs[g]) {
      if w.jobs[j].spec.group == InGraph(g) {
        OwnGraphSettles(w, j, g);
      } else {
        OtherGraphUntouched(w, j, g);
        OtherGraphSettled(u, w, v, j, g);
      }
    }
  }

  lemma OtherGraphSettled(u: World, w: World, v: World, j: nat, g: nat)
    requires Linked(u) && GraphsSettled(u) && j in u.jobs && u.jobs[j].spec.group != InGraph(g)
    requires g in u.graphs && g in w.graphs && g in v.graphs && SameGraph(u.graphs[g], w.graphs[g])
    requires SameGraph(w.graphs[g], v.graphs[g])
    requires w.jobs.Keys == u.jobs.Keys
    requires forall k :: k in u.jobs && k != j && u.jobs[k].spec.group.InGraph? ==> w.jobs[k] == u.jobs[k]
    requires forall k :: k in w.graphs[g].nodes ==> k in w.jobs && k in v.jobs && v.jobs[k] == w.jobs[k]
    ensures Settled(v.jobs, v.graphs[g])
  {
    assert GraphLinked(u, g);
    UntouchedSettled(u, v, g);
  }

  // ----- logs

  /** Executions that ended did so before, or end now with both streams complete. */
  ghost predicate EndsWithLogs(w: World, v: World) {
    forall j :: j in v.jobs && v.jobs[j].life.Ended? ==>
      (j in w.jobs && v.jobs[j] == w.jobs[j])
        || (v.jobs[j].spec.logged ==> CompleteStreams(v, v.jobs[j].life.dispatch.execution) == 2)
  }

  lemma SameLogs(w: World, v: World)
    requires LogsOk(w) && v.logs == w.logs && EndsWithLogs(w, v)
    ensures LogsOk(v)
  {
  }

  lemma SettlingInv(w: World, v: World)
    requires Inv(w) && Settling(w, v) && JobsOk(v) && GraphsSettled(v) && ActionsOk(v) && LogsOk(v)
    ensures Inv(v)
  {
    SettlingLinked(w, v);
    SettlingSafe(w, v);
  }

  // ----- transactions that dispatch nothing

  /** The job tables are the same; only actions or logs changed. */
  lemma SameJobsKeeps(w: World, v: World)
    requires Inv(w) && v == w.(actions := v.actions, logs := v.logs) && w.actions.Keys <= v.actions.Keys
    requires ActionsOk(v) && LogsOk(v)
    ensures Inv(v)
  {
    SameJobsSettling(w, v);
    StandingSettled(w, v);
    SettlingInv(w, v);
  }

  /** One dispatched job was rewritten without ending, and without change to what is desired of it. */
  ghost predicate RowRewritten(w: World, v: World, j: nat) {
    && j in w.jobs && j in v.jobs && v == w.(jobs := w.jobs[j := v.jobs[j]])
    && Active(w.jobs[j].life) && Active(v.jobs[j].life) && Quiet(w.jobs[j], v.jobs[j])
    && v.jobs[j].desire == w.jobs[j].desire
    && (JobOk(w.jobs[j]) ==> JobOk(v.jobs[j]))
  }

  lemma RowRewrittenActions(w: World, v: World, j: nat)
    requires RowRewritten(w, v, j) && ActionsOk(w) && UniqueIds(w) && JobOk(w.jobs[j])
    ensures ActionsOk(v)
  {
    RowActions(w, v, j);
  }

  lemma RowRewrittenSettled(w: World, v: World, j: nat)
    requires RowRewritten(w, v, j) && Linked(w) && GraphsSettled(w) && Settling(w, v)
    ensures GraphsSettled(v)
  {
    StandingSettled(w, v);
  }

  lemma RowRewrittenLogs(w: World, v: World, j: nat)
    requires RowRewritten(w, v, j) && LogsOk(w)
    ensures LogsOk(v)
  {
    SameLogs(w, v);
  }

  lemma RowRewrittenKeeps(w: World, v: World, j: nat)
    requires Inv(w) && RowRewritten(w, v, j)
    ensures Inv(v)
  {
    RowSettling(w, v, j);
    RowRewrittenSettled(w, v, j);
    RowRewrittenActions(w, v, j);
    RowRewrittenLogs(w, v, j);
    SettlingInv(w, v);
  }

  lemma AcceptRewrites(w: World, j: nat, who: Identity, a: AcceptanceRequest, now: nat)
    ensures var v := Accept(w, j, who, a, now).0; v == w || RowRewritten(w, v, j)
  {
  }

  lemma AcceptKeeps(w: World, j: nat, who: Identity, a: AcceptanceRequest, now: nat)
    requires Inv(w)
    ensures Inv(Accept(w, j, who, a, now).0)
  {
    AcceptRewrites(w, j, who, a, now);
    var v := Accept(w, j, who, a, now).0;
    if v != w { RowRewrittenKeeps(w, v, j); }
  }

  lemma MarkStaleRewrites(w: World, j: nat)
    ensures MarkStale(w, j) == w || RowRewritten(w, MarkStale(w, j), j)
  {
  }

  lemma MarkStaleKeeps(w: World, j: nat)
    requires Inv(w)
    ensures Inv(MarkStale(w, j))
  {
    MarkStaleRewrites(w, j);
    if MarkStale(w, j) != w { RowRewrittenKeeps(w, MarkStale(w, j), j); }
  }

  /** Which executions have actions is what matters, not the actions' states. */
  lemma ActionKeys(w: World, v: World)
    requires ActionsOk(w) && v == w.(actions := v.actions) && v.actions.Keys == w.actions.Keys
    ensures ActionsOk(v)
  {
    forall x | x in v.actions ensures Owned(v, x) { assert Owned(w, x); }
  }

  lemma AcknowledgeKeeps(w: World, j: nat, who: Identity)
    requires Inv(w)
    ensures Inv(Acknowledge(w, j, who))
  {
    var v := Acknowledge(w, j, who);
    assert v == w.(actions := v.actions) && v.actions.Keys == w.actions.Keys;
    ActionKeys(w, v);
    SameLogs(w, v);
    SameJobsKeeps(w, v);
  }

  lemma CommitLogStreams(w: World, v: World, execution: nat, stream: string, x: nat)
    requires v == w.(logs := v.logs) && (execution, stream) in v.logs
    requires v.logs == w.logs[(execution, stream) := v.logs[(execution, stream)]]
    requires Logs.Grows(TableOf(w, execution, stream), v.logs[(execution, stream)])
    requires CompleteStreams(w, x) == 2
    ensures CompleteStreams(v, x) == 2
  {
    assert StreamComplete(w, x, "stdout") == 1 && StreamComplete(w, x, "stderr") == 1;
  }

  /** A log commit replaces one table by a grown, consistent one, or nothing at all. */
  lemma CommitLogGrows(w: World, j: nat, agent: nat, store: string, version: Logs.Int64, prefix: string, c: Logs.Chunk)
    requires forall k :: k in w.logs ==> Logs.Consistent(w.logs[k])
    ensures var v := CommitLog(w, j, agent, store, version, prefix, c);
      || v == w
      || (exists x :: && (x, c.stream) in v.logs && v == w.(logs := w.logs[(x, c.stream) := v.logs[(x, c.stream)]])
            && Logs.Consistent(v.logs[(x, c.stream)]) && Logs.Grows(TableOf(w, x, c.stream), v.logs[(x, c.stream)]))
  {
    if j in w.jobs && Dispatched(w.jobs[j].life) {
      var x := w.jobs[j].life.dispatch.execution;
      Logs.CommitKeeps(TableOf(w, x, c.stream), Some(LogView(w.jobs[j], store, version, prefix)), agent, c);
      var v := CommitLog(w, j, agent, store, version, prefix, c);
      if v != w { assert (x, c.stream) in v.logs; }
    }
  }

  lemma GrownTableLogs(w: World, v: World, x: nat, stream: string)
    requires LogsOk(w) && (x, stream) in v.logs && v == w.(logs := w.logs[(x, stream) := v.logs[(x, stream)]])
    requires Logs.Consistent(v.logs[(x, stream)]) && Logs.Grows(TableOf(w, x, stream), v.logs[(x, stream)])
    ensures LogsOk(v)
  {
    forall k | k in v.jobs && v.jobs[k].life.Ended? && v.jobs[k].spec.logged
      ensures CompleteStreams(v, v.jobs[k].life.dispatch.execution) == 2
    {
      CommitLogStreams(w, v, x, stream, v.jobs[k].life.dispatch.execution);
    }
  }

  lemma CommitLogKeeps(w: World, j: nat, agent: nat, store: string, version: Logs.Int64, prefix: string, c: Logs.Chunk)
    requires Inv(w)
    ensures Inv(CommitLog(w, j, agent, store, version, prefix, c))
  {
    var v := CommitLog(w, j, agent, store, version, prefix, c);
    CommitLogGrows(w, j, agent, store, version, prefix, c);
    if v != w {
      var x :| (x, c.stream) in v.logs && v == w.(logs := w.logs[(x, c.stream) := v.logs[(x, c.stream)]])
        && Logs.Consistent(v.logs[(x, c.stream)]) && Logs.Grows(TableOf(w, x, c.stream), v.logs[(x, c.stream)]);
      GrownTableLogs(w, v, x, c.stream);
      UndispatchedActions(w, v);
      SameJobsKeeps(w, v);
    }
  }

  // ----- endings

  /** u is w with job j ended, not yet followed up in its graph: everything the follow-up relies on. */
  ghost predicate JustEnded(w: World, u: World, j: nat) {
    && Inv(w) && Settling(w, u) && j in w.jobs && JobsOk(u) && ActionsOk(u) && LogsOk(u)
    && (forall k :: k in w.jobs && k != j && w.jobs[k].spec.group.InGraph? ==> u.jobs[k] == w.jobs[k])
  }

  lemma CompleteGraphLogs(w: World, j: nat)
    requires LogsOk(w)
    ensures LogsOk(CompleteGraph(w, j))
  {
    var v := CompleteGraph(w, j);
    if v != w {
      var g := w.graphs[w.jobs[j].spec.group.graph];
      PropagateEffect(w.jobs, g);
      forall k | k in v.jobs && v.jobs[k].life.Ended? ensures v.jobs[k] == w.jobs[k] {
        assert DisposedRightly(w.jobs, Propagate(w.jobs, g), g, k);
      }
      SameLogs(w, v);
    }
  }

  lemma CompleteGraphJobs(w: World, j: nat)
    requires JobsOk(w)
    ensures JobsOk(CompleteGraph(w, j))
  {
    if CompleteGraph(w, j) != w { PropagateJobsOk(w.jobs, w.graphs[w.jobs[j].spec.group.graph]); }
  }

  /** Following up an ended node in its graph restores the whole invariant. */
  lemma CompleteGraphKeeps(w: World, u: World, j: nat)
    requires JustEnded(w, u, j)
    ensures Inv(CompleteGraph(u, j))
  {
    CompleteGraphSettling(u, j);
    SettlingIsTransitive(w, u, CompleteGraph(u, j));
    CompleteGraphSettles(w, u, j);
    CompleteGraphActions(u, j);
    CompleteGraphLogs(u, j);
    CompleteGraphJobs(u, j);
    SettlingInv(w, CompleteGraph(u, j));
  }

  lemma CancelRowLogs(w: World, j: nat)
    requires LogsOk(w)
    ensures LogsOk(CancelRow(w, j))
  {
    SameLogs(w, CancelRow(w, j));
  }

  lemma CancelRowJobs(w: World, j: nat)
    requires JobsOk(w)
    ensures JobsOk(CancelRow(w, j))
  {
    if j in w.jobs { CancelOneOk(w.jobs[j]); }
  }

  lemma CancelRowJustEnded(w: World, j: nat)
    requires Inv(w) && j in w.jobs
    ensures JustEnded(w, CancelRow(w, j), j)
  {
    CancelRowSettling(w, j);
    CancelRowJobs(w, j);
    CancelRowActions(w, j);
    CancelRowLogs(w, j);
  }

  lemma CancelLiveKeeps(w: World, j: nat)
    requires Inv(w) && j in w.jobs && w.jobs[j].life.Live?
    ensures Inv(CancelRow(w, j))
  {
    CancelRowJustEnded(w, j);
    StandingSettled(w, CancelRow(w, j));
    SettlingInv(w, CancelRow(w, j));
  }

  lemma CancelJobKeeps(w: World, j: nat)
    requires Inv(w)
    ensures Inv(CancelJob(w, j))
  {
    if j in w.jobs && !Terminal(w.jobs[j].life) && w.jobs[j].desire != ToCancel {
      if w.jobs[j].life.Live? { CancelLiveKeeps(w, j); }
      else {
        CancelRowJustEnded(w, j);
        CompleteGraphKeeps(w, CancelRow(w, j), j);
      }
    }
  }

  lemma {:induction false} CancelAllLogs(w: World, ids: seq<nat>)
    requires LogsOk(w)
    ensures LogsOk(CancelAll(w, ids))
  {
    if ids != [] {
      CancelAllLogs(w, ids[..|ids| - 1]);
      CancelRowLogs(CancelAll(w, ids[..|ids| - 1]), ids[|ids| - 1]);
    }
  }

  // ----- cancelling a graph

  lemma CancelGraphJobs(w: World, g: nat)
    requires Inv(w) && g in w.graphs
    ensures JobsOk(CancelGraph(w, g)) && LogsOk(CancelGraph(w, g))
  {
    CancelAllJobsOk(w, w.graphs[g].nodes);
    CancelAllLogs(w, w.graphs[g].nodes);
    SameLogs(CancelAll(w, w.graphs[g].nodes), CancelGraph(w, g));
  }

  lemma CancelGraphActions(w: World, g: nat)
    requires Inv(w) && g in w.graphs
    ensures ActionsOk(CancelGraph(w, g))
  {
    CancelAllActions(w, w.graphs[g].nodes);
    UndispatchedActions(CancelAll(w, w.graphs[g].nodes), CancelGraph(w, g));
  }

  lemma CancelledGraphSettled(w: World, g: nat)
    requires Linked(w) && g in w.graphs
    ensures Settled(CancelGraph(w, g).jobs, CancelGraph(w, g).graphs[g])
  {
    var v := CancelAll(w, w.graphs[g].nodes);
    assert GraphLinked(w, g);
    CancelAllStops(w, w.graphs[g].nodes);
    forall j | j in w.graphs[g].nodes ensures j in v.jobs && !v.jobs[j].life.Waiting? { assert Stopped(v, j); }
    NoneWaitingIsSettled(v.jobs, CancelGraph(w, g).graphs[g]);
  }

  lemma CancelGraphElsewhere(w: World, g: nat, h: nat)
    requires Linked(w) && g in w.graphs && h in w.graphs && g != h
    ensures Untouched(w, CancelGraph(w, g), h)
  {
    assert GraphLinked(w, g) && GraphLinked(w, h);
    CancelAllElsewhere(w, w.graphs[g].nodes);
  }

  lemma CancelGraphSettles(w: World, g: nat)
    requires Linked(w) && GraphsSettled(w) && g in w.graphs
    ensures GraphsSettled(CancelGraph(w, g))
  {
    CancelGraphSettling(w, g);
    forall h | h in CancelGraph(w, g).graphs ensures Settled(CancelGraph(w, g).jobs, CancelGraph(w, g).graphs[h]) {
      if h == g { CancelledGraphSettled(w, g); }
      else {
        assert GraphLinked(w, h);
        CancelGraphElsewhere(w, g, h);
        UntouchedSettled(w, CancelGraph(w, g), h);
      }
    }
  }

  lemma CancelGraphKeeps(w: World, g: nat)
    requires Inv(w)
    ensures Inv(CancelGraph(w, g))
  {
    if g in w.graphs {
      CancelGraphSettling(w, g);
      CancelGraphJobs(w, g);
      CancelGraphActions(w, g);
      CancelGraphSettles(w, g);
      SettlingInv(w, CancelGraph(w, g));
    }
  }

  // ----- events

  lemma ObservedRewrites(w: World, j: nat, e: Event)
    requires j in w.jobs && w.jobs[j].life.Live? && e.sequence == |w.jobs[j].life.events| + 1 && !IsCompletion(e.kind)
    ensures RowRewritten(w, Observed(w, j, e), j)
  {
    if JobOk(w.jobs[j]) { ObserveOk(w.jobs[j].life, w.jobs[j].desire, e); }
  }

  lemma ObservedJobs(w: World, j: nat, e: Event)
    requires JobsOk(w) && j in w.jobs && w.jobs[j].life.Live? && e.sequence == |w.jobs[j].life.events| + 1
    ensures JobsOk(Observed(w, j, e))
  {
    assert JobOk(w.jobs[j]);
    ObserveOk(w.jobs[j].life, w.jobs[j].desire, e);
  }

  /** Everything but settledness holds right after an event that completes an execution. */
  ghost predicate Unsettled(w: World) {
    Linked(w) && JobsOk(w) && GraphsSafe(w) && CollectionsSafe(w) && UniqueIds(w) && ActionsOk(w) && LogsOk(w)
  }

  lemma ObservedUnsettled(w: World, j: nat, e: Event)
    requires Inv(w) && j in w.jobs && Admits(w, j, e)
    ensures Settling(w, Observed(w, j, e)) && Unsettled(Observed(w, j, e))
  {
    var u := Observed(w, j, e);
    RowSettling(w, u, j);
    SettlingLinked(w, u);
    SettlingSafe(w, u);
    ObservedJobs(w, j, e);
    RowActions(w, u, j);
    ObservedLogs(w, j, e);
  }

  lemma ObservedLogs(w: World, j: nat, e: Event)
    requires LogsOk(w) && j in w.jobs && Admits(w, j, e)
    ensures LogsOk(Observed(w, j, e))
  {
    SameLogs(w, Observed(w, j, e));
  }

  /** Fail-fast keeps everything but settledness, and touches no graph node. */
  lemma CompleteCollectionKeeps(w: World, j: nat)
    requires Unsettled(w) && j in w.jobs
    ensures Unsettled(CompleteCollection(w, j))
    ensures forall k :: k in w.jobs && w.jobs[k].spec.group.InGraph? ==>
      k in CompleteCollection(w, j).jobs && CompleteCollection(w, j).jobs[k] == w.jobs[k]
  {
    CompleteCollectionSettling(w, j);
    SettlingLinked(w, CompleteCollection(w, j));
    SettlingSafe(w, CompleteCollection(w, j));
    if w.jobs[j].spec.group.InCollection? && w.jobs[j].spec.group.collection in w.collections {
      var c := w.jobs[j].spec.group.collection;
      CompleteCollectionRows(w, j, c);
      CompleteCollectionSides(w, j, c);
    }
  }

  lemma CompleteCollectionRows(w: World, j: nat, c: nat)
    requires Linked(w) && j in w.jobs && w.jobs[j].spec.group == InCollection(c) && c in w.collections
    ensures forall k :: k in w.jobs && w.jobs[k].spec.group.InGraph? ==>
      k in CompleteCollection(w, j).jobs && CompleteCollection(w, j).jobs[k] == w.jobs[k]
  {
    assert CollectionLinked(w, c);
    CancelAllElsewhere(w, w.collections[c].items);
  }

  /** Only group revisions differ. */
  lemma SameRowsSides(w: World, v: World)
    requires JobsOk(w) && ActionsOk(w) && LogsOk(w) && v.jobs == w.jobs && v.actions == w.actions && v.logs == w.logs
    ensures JobsOk(v) && ActionsOk(v) && LogsOk(v)
  {
    UndispatchedActions(w, v);
    SameLogs(w, v);
  }

  lemma CancelAllSides(w: World, ids: seq<nat>)
    requires JobsOk(w) && ActionsOk(w) && LogsOk(w) && UniqueIds(w) && GraphsSafe(w) && CollectionsSafe(w)
    ensures JobsOk(CancelAll(w, ids)) && ActionsOk(CancelAll(w, ids)) && LogsOk(CancelAll(w, ids))
  {
    CancelAllJobsOk(w, ids);
    CancelAllActions(w, ids);
    CancelAllLogs(w, ids);
  }

  lemma CompleteCollectionSides(w: World, j: nat, c: nat)
    requires JobsOk(w) && ActionsOk(w) && LogsOk(w) && UniqueIds(w) && GraphsSafe(w) && CollectionsSafe(w)
    requires j in w.jobs && w.jobs[j].spec.group == InCollection(c) && c in w.collections
    ensures JobsOk(CompleteCollection(w, j)) && ActionsOk(CompleteCollection(w, j)) && LogsOk(CompleteCollection(w, j))
  {
    CancelAllSides(w, w.collections[c].items);
    if w.collections[c].failFast && OutcomeOf(w.jobs[j].life) != Some(Success) {
      SameRowsSides(CancelAll(w, w.collections[c].items), CompleteCollection(w, j));
    } else {
      SameRowsSides(w, CompleteCollection(w, j));
    }
  }

  lemma CompletionRows(w: World, u: World, v: World, j: nat)
    requires j in w.jobs && j in u.jobs && u.jobs == w.jobs[j := u.jobs[j]] && Settling(w, u)
    requires forall k :: k in u.jobs && u.jobs[k].spec.group.InGraph? ==> k in v.jobs && v.jobs[k] == u.jobs[k]
    ensures forall k :: k in w.jobs && k != j && w.jobs[k].spec.group.InGraph? ==> k in v.jobs && v.jobs[k] == w.jobs[k]
  {
    forall k | k in w.jobs && k != j && w.jobs[k].spec.group.InGraph? ensures k in v.jobs && v.jobs[k] == w.jobs[k] {
      assert u.jobs[k] == w.jobs[k];
    }
  }

  lemma CompletionJustEnded(w: World, j: nat, e: Event)
    requires Inv(w) && j in w.jobs && Admits(w, j, e)
    ensures JustEnded(w, CompleteCollection(Observed(w, j, e), j), j)
  {
    var u := Observed(w, j, e);
    ObservedUnsettled(w, j, e);
    CompleteCollectionSettling(u, j);
    SettlingIsTransitive(w, u, CompleteCollection(u, j));
    CompleteCollectionKeeps(u, j);
    CompletionRows(w, u, CompleteCollection(u, j), j);
  }

  lemma RecordKeeps(w: World, j: nat, who: Identity, e: Event)
    requires Inv(w)
    ensures Inv(Record(w, j, who, e).0)
  {
    RecordCases(w, j, who, e);
    if Record(w, j, who, e).0 != w {
      if IsCompletion(e.kind) {
        CompletionJustEnded(w, j, e);
        CompleteGraphKeeps(w, CompleteCollection(Observed(w, j, e), j), j);
      } else {
        ObservedRewrites(w, j, e);
        RowRewrittenKeeps(w, Observed(w, j, e), j);
      }
    }
  }
}
