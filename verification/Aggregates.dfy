/** What the read side reports: member counts and outcome of a graph or collection, and a node's
    dependency counts. */
module Aggregates {
  import opened Base
  import opened Domain
  import opened EdgePredicates
  import opened Propagation
  import opened ControlPlane
  import opened Digraphs
  import opened Invariants
  import opened Dispatching

  // ----- the count(*) FILTER columns

  function DispositionOf(life: Life): Option<Disposition> {
    if life.Dropped? then life.disposition else None
  }

  datatype Column =
    | All | AwaitingRows | ActiveRows | TerminalRows
    | Succeeded | Canceled | SkippedRows | BlockedRows | FailedRows | CollectionFailed

  /** outcome NOT IN ('success', 'cancelled'), which NULL does not pass. */
  predicate Unsuccessful(outcome: Option<Outcome>) {
    outcome.Some? && outcome.value != Success && outcome.value != Cancelled
  }

  /** The row is one that the column counts. */
  predicate Selects(column: Column, life: Life) {
    match column
    case All => true
    case AwaitingRows => life.Waiting?
    case ActiveRows => !life.Waiting? && !Terminal(life)
    case TerminalRows => Terminal(life)
    case Succeeded => Terminal(life) && OutcomeOf(life) == Some(Success)
    case Canceled => Terminal(life) && OutcomeOf(life) == Some(Cancelled)
    case SkippedRows => Terminal(life) && DispositionOf(life) == Some(Skipped)
    case BlockedRows => Terminal(life) && DispositionOf(life) == Some(Blocked)
    case FailedRows => Terminal(life) && Unsuccessful(OutcomeOf(life)) && DispositionOf(life).None?
    case CollectionFailed => Terminal(life) && Unsuccessful(OutcomeOf(life))
  }

  /** A group's rows are listed in index order; the scan counts those that a column selects. */
  function Count(jobs: Jobs, rows: seq<nat>, column: Column): nat {
    if rows == [] then 0
    else Count(jobs, rows[1..], column) + if rows[0] in jobs then Weight(column, jobs[rows[0]].life) else 0
  }

  function Weight(column: Column, life: Life): nat {
    if Selects(column, life) then 1 else 0
  }

  datatype Verdict = Accepted | Running | Over(outcome: Outcome)

  /** The phase and outcome a scan derives from the counts. */
  function Scan(total: nat, active: nat, terminal: nat, failed: nat, canceled: nat): Verdict {
    if total > 0 && terminal == total
      then Over(if failed > 0 then Failure else if canceled > 0 then Cancelled else Success)
    else if active > 0 then Running else Accepted
  }

  function ScanGraph(jobs: Jobs, rows: seq<nat>): Verdict {
    Scan(Count(jobs, rows, All), Count(jobs, rows, ActiveRows), Count(jobs, rows, TerminalRows),
         Count(jobs, rows, FailedRows) + Count(jobs, rows, SkippedRows) + Count(jobs, rows, BlockedRows),
           Count(jobs, rows, Canceled))
  }

  function ScanCollection(jobs: Jobs, rows: seq<nat>): Verdict {
    Scan(Count(jobs, rows, All), Count(jobs, rows, ActiveRows), Count(jobs, rows, TerminalRows),
         Count(jobs, rows, CollectionFailed), Count(jobs, rows, Canceled))
  }

  // ----- conservation

  lemma WeightsAddUp(job: Job)
    requires JobOk(job)
    ensures Weight(AwaitingRows, job.life) + Weight(ActiveRows, job.life) + Weight(TerminalRows, job.life) ==
      Weight(All, job.life)
    ensures Weight(Succeeded, job.life) + Weight(CollectionFailed, job.life) + Weight(Canceled, job.life) ==
      Weight(TerminalRows, job.life)
    ensures Weight(FailedRows, job.life) + Weight(SkippedRows, job.life) + Weight(BlockedRows, job.life) ==
      Weight(CollectionFailed, job.life)
  {
  }

  /** Each row is counted once by phase, and once more by outcome if it is terminal. */
  lemma {:induction false} CountsAddUp(jobs: Jobs, rows: seq<nat>)
    requires forall j :: j in rows ==> j in jobs && JobOk(jobs[j])
    ensures Count(jobs, rows, AwaitingRows) + Count(jobs, rows, ActiveRows) + Count(jobs, rows, TerminalRows) ==
      Count(jobs, rows, All)
    ensures Count(jobs, rows, Succeeded) + Count(jobs, rows, CollectionFailed) + Count(jobs, rows, Canceled) ==
      Count(jobs, rows, TerminalRows)
    ensures Count(jobs, rows, FailedRows) + Count(jobs, rows, SkippedRows) + Count(jobs, rows, BlockedRows) ==
      Count(jobs, rows, CollectionFailed)
  {
    if rows != [] {
      WeightsAddUp(jobs[rows[0]]);
      CountsAddUp(jobs, rows[1..]);
    }
  }

  lemma {:induction false} CountMeans(jobs: Jobs, rows: seq<nat>, column: Column)
    requires forall j :: j in rows ==> j in jobs
    ensures Count(jobs, rows, column) <= |rows|
    ensures Count(jobs, rows, column) > 0 <==> exists j :: j in rows && Selects(column, jobs[j].life)
    ensures Count(jobs, rows, column) == |rows| <==> forall j :: j in rows ==> Selects(column, jobs[j].life)
  {
    if rows != [] {
      CountMeans(jobs, rows[1..], column);
      assert forall j :: j in rows <==> j == rows[0] || j in rows[1..];
    }
  }

  // ----- each column is the number of the rows it is about

  ghost function Chosen(jobs: Jobs, rows: seq<nat>, column: Column): set<nat> {
    set j | j in rows && j in jobs && Selects(column, jobs[j].life)
  }

  lemma ChosenNext(jobs: Jobs, rows: seq<nat>, column: Column)
    requires Distinct(rows) && rows != []
    ensures |Chosen(jobs, rows, column)| == |Chosen(jobs, rows[1..], column)|
      + if rows[0] in jobs && Selects(column, jobs[rows[0]].life) then 1 else 0
  {
    var all, rest, first := Chosen(jobs, rows, column), Chosen(jobs, rows[1..], column), rows[0];
    assert first !in rows[1..];
    forall j ensures j in rows <==> j == first || j in rows[1..] {}
    if first in all { assert all == rest + {first}; } else { assert all == rest; }
  }

  lemma {:induction false} CountIsSize(jobs: Jobs, rows: seq<nat>, column: Column)
    requires Distinct(rows)
    ensures Count(jobs, rows, column) == |Chosen(jobs, rows, column)|
  {
    if rows == [] {
      assert Chosen(jobs, rows, column) == {};
    } else {
      CountIsSize(jobs, rows[1..], column);
      ChosenNext(jobs, rows, column);
    }
  }

  predicate Failing(o: Option<Outcome>) {
    o == Some(Failure) || o == Some(TimedOut) || o == Some(Aborted) || o == Some(Lost)
  }

  /** The phase columns, on the members themselves. */
  ghost predicate CountsPhases(jobs: Jobs, rows: seq<nat>) {
    && Count(jobs, rows, All) == |set j | j in rows && j in jobs|
    && Count(jobs, rows, AwaitingRows) == |set j | j in rows && j in jobs && jobs[j].life.Waiting?|
    && Count(jobs, rows, ActiveRows) ==
         |set j | j in rows && j in jobs && (jobs[j].life.Offered? || jobs[j].life.Live?)|
    && Count(jobs, rows, TerminalRows) ==
         |set j | j in rows && j in jobs && (jobs[j].life.Ended? || jobs[j].life.Withdrawn? || jobs[j].life.Dropped?)|
  }

  /** The outcome columns. A withdrawn offer counts as cancelled. */
  ghost predicate CountsOutcomes(jobs: Jobs, rows: seq<nat>) {
    && Count(jobs, rows, Succeeded) == |set j | j in rows && j in jobs && OutcomeOf(jobs[j].life) == Some(Success)|
    && Count(jobs, rows, Canceled) == |set j | j in rows && j in jobs && OutcomeOf(jobs[j].life) == Some(Cancelled)|
    && Count(jobs, rows, CollectionFailed) == |set j | j in rows && j in jobs && Failing(OutcomeOf(jobs[j].life))|
  }

  /** The columns that tell nodes a graph gave up from those that failed. */
  ghost predicate CountsDispositions(jobs: Jobs, rows: seq<nat>) {
    && Count(jobs, rows, SkippedRows) ==
         |set j | j in rows && j in jobs && jobs[j].life.Dropped? && jobs[j].life.disposition == Some(Skipped)|
    && Count(jobs, rows, BlockedRows) ==
         |set j | j in rows && j in jobs && jobs[j].life.Dropped? && jobs[j].life.disposition == Some(Blocked)|
    && Count(jobs, rows, FailedRows) ==
         |set j | j in rows && j in jobs && Failing(OutcomeOf(jobs[j].life))
                  && !(jobs[j].life.Dropped? && jobs[j].life.disposition.Some?)|
  }

  lemma PhasesCounted(jobs: Jobs, rows: seq<nat>)
    requires Distinct(rows)
    ensures CountsPhases(jobs, rows)
  {
    CountIsSize(jobs, rows, All);
    CountIsSize(jobs, rows, AwaitingRows);
    CountIsSize(jobs, rows, ActiveRows);
    CountIsSize(jobs, rows, TerminalRows);
    assert Chosen(jobs, rows, All) == set j | j in rows && j in jobs;
    assert Chosen(jobs, rows, AwaitingRows) == set j | j in rows && j in jobs && jobs[j].life.Waiting?;
    assert Chosen(jobs, rows, ActiveRows) ==
      set j | j in rows && j in jobs && (jobs[j].life.Offered? || jobs[j].life.Live?);
    assert Chosen(jobs, rows, TerminalRows) ==
      set j | j in rows && j in jobs && (jobs[j].life.Ended? || jobs[j].life.Withdrawn? || jobs[j].life.Dropped?);
  }

  lemma OutcomesCounted(jobs: Jobs, rows: seq<nat>)
    requires Distinct(rows)
    ensures CountsOutcomes(jobs, rows)
  {
    CountIsSize(jobs, rows, Succeeded);
    CountIsSize(jobs, rows, Canceled);
    CountIsSize(jobs, rows, CollectionFailed);
    assert Chosen(jobs, rows, Succeeded) == set j | j in rows && j in jobs && OutcomeOf(jobs[j].life) == Some(Success);
    assert Chosen(jobs, rows, Canceled) == set j | j in rows && j in jobs && OutcomeOf(jobs[j].life) == Some(Cancelled);
    assert Chosen(jobs, rows, CollectionFailed) == set j | j in rows && j in jobs && Failing(OutcomeOf(jobs[j].life));
  }

  lemma DispositionsCounted(jobs: Jobs, rows: seq<nat>)
    requires Distinct(rows)
    ensures CountsDispositions(jobs, rows)
  {
    CountIsSize(jobs, rows, SkippedRows);
    CountIsSize(jobs, rows, BlockedRows);
    CountIsSize(jobs, rows, FailedRows);
    assert Chosen(jobs, rows, SkippedRows) ==
      set j | j in rows && j in jobs && jobs[j].life.Dropped? && jobs[j].life.disposition == Some(Skipped);
    assert Chosen(jobs, rows, BlockedRows) ==
      set j | j in rows && j in jobs && jobs[j].life.Dropped? && jobs[j].life.disposition == Some(Blocked);
    assert Chosen(jobs, rows, FailedRows) ==
      set j | j in rows && j in jobs && Failing(OutcomeOf(jobs[j].life))
              && !(jobs[j].life.Dropped? && jobs[j].life.disposition.Some?);
  }

  // ----- what the verdict means

  ghost predicate AllOver(jobs: Jobs, members: seq<nat>)
    requires forall j :: j in members ==> j in jobs
  {
    members != [] && forall j :: j in members ==> Terminal(jobs[j].life)
  }

  /** What the verdict ought to be, said about the members themselves. */
  ghost predicate Means(jobs: Jobs, members: seq<nat>, verdict: Verdict)
    requires forall j :: j in members ==> j in jobs
  {
    match verdict
    case Over(outcome) =>
      && AllOver(jobs, members)
      && (outcome == Success <==> forall j :: j in members ==> OutcomeOf(jobs[j].life) == Some(Success))
      && (outcome == Failure <==> exists j :: j in members && Unsuccessful(OutcomeOf(jobs[j].life)))
      && (outcome != Success && outcome != Failure ==> outcome == Cancelled)
    case Running => !AllOver(jobs, members) && exists j :: j in members && Active(jobs[j].life)
    case Accepted => !AllOver(jobs, members) && forall j :: j in members ==> !Active(jobs[j].life)
  }

  lemma PhaseCountsMean(jobs: Jobs, rows: seq<nat>)
    requires forall j :: j in rows ==> j in jobs
    ensures Count(jobs, rows, All) == |rows|
    ensures Count(jobs, rows, TerminalRows) == |rows| > 0 <==> AllOver(jobs, rows)
    ensures Count(jobs, rows, ActiveRows) > 0 <==> exists j :: j in rows && Active(jobs[j].life)
  {
    CountMeans(jobs, rows, All);
    CountMeans(jobs, rows, TerminalRows);
    CountMeans(jobs, rows, ActiveRows);
    assert forall j :: j in rows ==> (Selects(ActiveRows, jobs[j].life) <==> Active(jobs[j].life));
  }

  lemma OutcomeCountsMean(jobs: Jobs, rows: seq<nat>)
    requires (forall j :: j in rows ==> j in jobs) && AllOver(jobs, rows)
    ensures Count(jobs, rows, CollectionFailed) > 0 <==> exists j :: j in rows && Unsuccessful(OutcomeOf(jobs[j].life))
    ensures Count(jobs, rows, CollectionFailed) == Count(jobs, rows, Canceled) == 0 <==>
      forall j :: j in rows ==> OutcomeOf(jobs[j].life) == Some(Success)
  {
    CountMeans(jobs, rows, CollectionFailed);
    CountMeans(jobs, rows, Canceled);
  }

  lemma ScanMeans(jobs: Jobs, rows: seq<nat>)
    requires forall j :: j in rows ==> j in jobs
    ensures Means(jobs, rows, ScanCollection(jobs, rows))
  {
    PhaseCountsMean(jobs, rows);
    if AllOver(jobs, rows) { OutcomeCountsMean(jobs, rows); }
  }

  /** The rows are exactly the jobs that name the group, each once. */
  ghost predicate Lists(jobs: Jobs, group: Group, rows: seq<nat>) {
    Distinct(rows) && forall j :: j in rows <==> j in jobs && jobs[j].spec.group == group
  }

  lemma GraphRows(w: World, g: nat)
    requires Linked(w) && g in w.graphs
    ensures Lists(w.jobs, InGraph(g), w.graphs[g].nodes)
  {
    assert GraphLinked(w, g);
    forall j | j in w.jobs && w.jobs[j].spec.group == InGraph(g)
      ensures j in w.graphs[g].nodes
    {
      assert GroupOk(w, j);
    }
  }

  lemma CollectionRows(w: World, c: nat)
    requires Linked(w) && c in w.collections
    ensures Lists(w.jobs, InCollection(c), w.collections[c].items)
  {
    assert CollectionLinked(w, c);
    forall j | j in w.jobs && w.jobs[j].spec.group == InCollection(c)
      ensures j in w.collections[c].items
    {
      assert GroupOk(w, j);
    }
  }

  ghost predicate AddsUp(jobs: Jobs, rows: seq<nat>) {
    && Count(jobs, rows, AwaitingRows) + Count(jobs, rows, ActiveRows) + Count(jobs, rows, TerminalRows) ==
         Count(jobs, rows, All)
    && Count(jobs, rows, Succeeded) + Count(jobs, rows, FailedRows) + Count(jobs, rows, Canceled)
       + Count(jobs, rows, SkippedRows) + Count(jobs, rows, BlockedRows) == Count(jobs, rows, TerminalRows)
  }

  /** Everything the read side says of a graph's nodes is so. */
  ghost predicate ReportsGraph(w: World, g: nat)
    requires g in w.graphs
  {
    var nodes := w.graphs[g].nodes;
    && Lists(w.jobs, InGraph(g), nodes) && AddsUp(w.jobs, nodes) && Means(w.jobs, nodes, ScanGraph(w.jobs, nodes))
    && CountsPhases(w.jobs, nodes) && CountsOutcomes(w.jobs, nodes) && CountsDispositions(w.jobs, nodes)
  }

  lemma GraphMeans(w: World, g: nat)
    requires Linked(w) && JobsOk(w) && g in w.graphs && Lists(w.jobs, InGraph(g), w.graphs[g].nodes)
    ensures AddsUp(w.jobs, w.graphs[g].nodes)
    ensures Means(w.jobs, w.graphs[g].nodes, ScanGraph(w.jobs, w.graphs[g].nodes))
  {
    CountsAddUp(w.jobs, w.graphs[g].nodes);
    ScanMeans(w.jobs, w.graphs[g].nodes);
  }

  lemma MembersCounted(jobs: Jobs, rows: seq<nat>)
    requires Distinct(rows)
    ensures CountsPhases(jobs, rows) && CountsOutcomes(jobs, rows) && CountsDispositions(jobs, rows)
  {
    PhasesCounted(jobs, rows);
    OutcomesCounted(jobs, rows);
    DispositionsCounted(jobs, rows);
  }

  lemma GraphReportIn(w: World, g: nat)
    requires Linked(w) && JobsOk(w) && g in w.graphs
    ensures ReportsGraph(w, g)
  {
    GraphRows(w, g);
    GraphMeans(w, g);
    MembersCounted(w.jobs, w.graphs[g].nodes);
  }

  /** In every reachable state a graph's counts are the numbers of its nodes they are about, they add up,
      and its reported phase and outcome are those of its nodes. */
  lemma GraphReport(namespaces: map<nat, NamespacePolicy>, steps: seq<Step>, g: nat)
    requires g in Run(Empty(namespaces), steps).graphs
    ensures ReportsGraph(Run(Empty(namespaces), steps), g)
  {
    Reachable(namespaces, steps);
    GraphReportIn(Run(Empty(namespaces), steps), g);
  }

  /** The same for collections, whose failures are one column. */
  lemma CollectionReport(namespaces: map<nat, NamespacePolicy>, steps: seq<Step>, c: nat)
    requires c in Run(Empty(namespaces), steps).collections
    ensures var w := Run(Empty(namespaces), steps); var items := w.collections[c].items;
      && Lists(w.jobs, InCollection(c), items)
      && Count(w.jobs, items, Succeeded) + Count(w.jobs, items, CollectionFailed) + Count(w.jobs, items, Canceled) ==
           Count(w.jobs, items, TerminalRows)
      && Means(w.jobs, items, ScanCollection(w.jobs, items))
      && CountsPhases(w.jobs, items) && CountsOutcomes(w.jobs, items)
  {
    Reachable(namespaces, steps);
    var w := Run(Empty(namespaces), steps);
    CollectionRows(w, c);
    CountsAddUp(w.jobs, w.collections[c].items);
    ScanMeans(w.jobs, w.collections[c].items);
    PhasesCounted(w.jobs, w.collections[c].items);
    OutcomesCounted(w.jobs, w.collections[c].items);
  }

  // ----- dependency counts

  datatype Dependencies = Dependencies(total: nat, satisfied: nat, waiting: nat, unsatisfied: nat)

  /** The monitoring query's counts over the edges into a node. */
  function CountDependencies(jobs: Jobs, edges: seq<Edge>, j: nat): Dependencies {
    if edges == [] then Dependencies(0, 0, 0, 0) else
      var rest, edge := CountDependencies(jobs, edges[1..], j), edges[0];
      if edge.downstream != j || edge.upstream !in jobs then rest else
        match MonitorState(edge, UpstreamOf(jobs[edge.upstream].life))
        case SatisfiedEdge => rest.(total := rest.total + 1, satisfied := rest.satisfied + 1)
        case WaitingEdge => rest.(total := rest.total + 1, waiting := rest.waiting + 1)
        case UnsatisfiedEdge => rest.(total := rest.total + 1, unsatisfied := rest.unsatisfied + 1)
  }

  /** What a state says of an edge. */
  predicate InState(jobs: Jobs, e: Edge, state: EdgeState) {
    match state
    case WaitingEdge => !Finished(jobs, e)
    case SatisfiedEdge => Satisfied(jobs, e)
    case UnsatisfiedEdge => Finished(jobs, e) && !Satisfied(jobs, e)
  }

  /** The positions of the edges into j that are in the state. */
  ghost function Places(jobs: Jobs, edges: seq<Edge>, j: nat, state: EdgeState): set<nat> {
    set k: nat | k < |edges| && edges[k].downstream == j && InState(jobs, edges[k], state)
  }

  lemma {:induction false} ShiftSize(a: set<nat>, b: set<nat>)
    requires forall k :: k in b <==> k > 0 && k - 1 in a
    ensures |a| == |b|
  {
    if a == {} {
      if k :| k in b { assert false; }
    } else {
      var k :| k in a;
      ShiftSize(a - {k}, b - {k + 1});
      assert k + 1 in b;
    }
  }

  lemma PlacesNext(jobs: Jobs, edges: seq<Edge>, j: nat, state: EdgeState)
    requires edges != []
    ensures |Places(jobs, edges, j, state)| == |Places(jobs, edges[1..], j, state)|
      + if edges[0].downstream == j && InState(jobs, edges[0], state) then 1 else 0
  {
    var all, rest := Places(jobs, edges, j, state), Places(jobs, edges[1..], j, state);
    ShiftSize(rest, all - {0});
  }

  /** Each dependency count is the number of edges into the node in that state. */
  lemma {:induction false} DependenciesCounted(jobs: Jobs, edges: seq<Edge>, j: nat)
    requires forall e :: e in edges ==> e.upstream in jobs
    ensures var d := CountDependencies(jobs, edges, j);
      && d.satisfied == |Places(jobs, edges, j, SatisfiedEdge)| && d.waiting == |Places(jobs, edges, j, WaitingEdge)|
      && d.unsatisfied == |Places(jobs, edges, j, UnsatisfiedEdge)|
  {
    if edges == [] {
      assert forall state :: Places(jobs, edges, j, state) == {};
    } else {
      DependenciesCounted(jobs, edges[1..], j);
      LifecyclesAgree(edges[0], jobs[edges[0].upstream].life);
      PlacesNext(jobs, edges, j, SatisfiedEdge);
      PlacesNext(jobs, edges, j, WaitingEdge);
      PlacesNext(jobs, edges, j, UnsatisfiedEdge);
    }
  }

  /** The edge states partition the total; what they say is what the coordinator and the completion loop do. */
  lemma {:induction false} DependenciesMean(jobs: Jobs, edges: seq<Edge>, j: nat)
    requires forall e :: e in edges ==> e.upstream in jobs
    ensures var d := CountDependencies(jobs, edges, j);
      && d.satisfied + d.waiting + d.unsatisfied == d.total
      && (d.satisfied == d.total <==> forall e :: e in edges && e.downstream == j ==> Satisfied(jobs, e))
      && (d.waiting == 0 <==> forall e :: e in edges && e.downstream == j ==> Finished(jobs, e))
  {
    if edges != [] {
      var edge := edges[0];
      DependenciesMean(jobs, edges[1..], j);
      LifecyclesAgree(edge, jobs[edge.upstream].life);
      assert forall e :: e in edges <==> e == edge || e in edges[1..];
    }
  }

  /** Everything the read side says of a node's dependencies is so. */
  ghost predicate ReportsNode(jobs: Jobs, g: Graph, j: nat) {
    var d := CountDependencies(jobs, g.edges, j);
    && j in jobs
    && d == Dependencies(d.satisfied + d.waiting + d.unsatisfied, |Places(jobs, g.edges, j, SatisfiedEdge)|,
                         |Places(jobs, g.edges, j, WaitingEdge)|, |Places(jobs, g.edges, j, UnsatisfiedEdge)|)
    && (d.satisfied == d.total <==> Ready(jobs, g, j))
    && (jobs[j].life.Waiting? && d.waiting == 0 ==> d.unsatisfied == 0)
    && (Dispatched(jobs[j].life) ==> d.satisfied == d.total)
  }

  lemma NodeReportIn(jobs: Jobs, g: Graph, j: nat)
    requires j in jobs && (forall e :: e in g.edges ==> e.upstream in jobs) && !Stuck(jobs, g, j)
    requires Dispatched(jobs[j].life) ==> Ready(jobs, g, j)
    ensures ReportsNode(jobs, g, j)
  {
    DependenciesMean(jobs, g.edges, j);
    DependenciesCounted(jobs, g.edges, j);
  }

  /** In every reachable state: a node's dependency counts are the numbers of edges in each state, all are
      satisfied exactly when the coordinator would let it go, and no waiting node has an unsatisfied
      dependency and none pending. */
  lemma NodeReport(namespaces: map<nat, NamespacePolicy>, steps: seq<Step>, g: nat, j: nat)
    requires g in Run(Empty(namespaces), steps).graphs && j in Run(Empty(namespaces), steps).graphs[g].nodes
    ensures ReportsNode(Run(Empty(namespaces), steps).jobs, Run(Empty(namespaces), steps).graphs[g], j)
  {
    Reachable(namespaces, steps);
    var w := Run(Empty(namespaces), steps);
    assert GraphLinked(w, g) && GraphSafe(w.jobs, w.graphs[g]) && Settled(w.jobs, w.graphs[g]);
    NodeReportIn(w.jobs, w.graphs[g], j);
  }

  /** In every reachable state the four copies of the edge predicate classify each stored edge alike. */
  lemma CopiesAgree(namespaces: map<nat, NamespacePolicy>, steps: seq<Step>, g: nat, e: Edge)
    requires g in Run(Empty(namespaces), steps).graphs && e in Run(Empty(namespaces), steps).graphs[g].edges
    ensures var w := Run(Empty(namespaces), steps);
      e.upstream in w.jobs && Agree(e, UpstreamOf(w.jobs[e.upstream].life))
  {
    Reachable(namespaces, steps);
    var w := Run(Empty(namespaces), steps);
    assert GraphLinked(w, g);
    LifecyclesAgree(e, w.jobs[e.upstream].life);
  }
}
