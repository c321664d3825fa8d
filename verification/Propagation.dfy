/** Resolution of graph nodes whose dependencies can no longer be met. */
module Propagation {
  import opened Base
  import opened Domain
  import opened EdgePredicates

  type Jobs = map<nat, Job>

  predicate Finished(jobs: Jobs, e: Edge) {
    e.upstream in jobs && Terminal(jobs[e.upstream].life)
  }

  predicate Satisfied(jobs: Jobs, e: Edge) {
    Finished(jobs, e) && Holds(e, OutcomeOf(jobs[e.upstream].life))
  }

  predicate Ready(jobs: Jobs, g: Graph, j: nat) {
    forall e :: e in g.edges && e.downstream == j ==> Satisfied(jobs, e)
  }

  /** A waiting node all of whose upstreams ended and one of whose edges they refute. */
  predicate Stuck(jobs: Jobs, g: Graph, j: nat) {
    && j in jobs && jobs[j].life.Waiting?
    && (forall e :: e in g.edges && e.downstream == j ==> Finished(jobs, e))
    && (exists e :: e in g.edges && e.downstream == j && !Satisfied(jobs, e))
  }

  /** No node is stuck: what every completion leaves behind. */
  ghost predicate Settled(jobs: Jobs, g: Graph) {
    forall j :: j in g.nodes ==> !Stuck(jobs, g, j)
  }

  /** How the graph's policy disposes of an unsatisfied node. */
  function Disposed(policy: Policy, job: Job): Job {
    match policy
    case SkipUnsatisfied => job.(desire := ToRun, revision := job.revision + 1, life := Dropped(Aborted, Some(Skipped)))
    case BlockUnsatisfied =>
      job.(desire := ToRun, revision := job.revision + 1, life := Dropped(Aborted, Some(Blocked)))
    case CancelUnsatisfied =>
      job.(desire := ToCancel, revision := job.revision + 1, life := Dropped(Cancelled, Some(CancelledByPolicy)))
  }

  function Resolve(jobs: Jobs, g: Graph, j: nat): Jobs
    requires j in jobs
  {
    jobs[j := Disposed(g.policy, jobs[j])]
  }

  ghost function WaitingNodes(jobs: Jobs, g: Graph): set<nat> {
    set j | j in g.nodes && j in jobs && jobs[j].life.Waiting?
  }

  /** The stuck node of lowest index, if any. */
  function FirstStuck(jobs: Jobs, g: Graph, from: nat): (r: Option<nat>)
    requires from <= |g.nodes|
    ensures r.Some? ==> r.value in g.nodes && Stuck(jobs, g, r.value)
    ensures r.None? ==> forall i :: from <= i < |g.nodes| ==> !Stuck(jobs, g, g.nodes[i])
    decreases |g.nodes| - from
  {
    if from == |g.nodes| then None
    else if Stuck(jobs, g, g.nodes[from]) then Some(g.nodes[from])
    else FirstStuck(jobs, g, from + 1)
  }

  lemma ResolveShrinks(jobs: Jobs, g: Graph, j: nat)
    requires j in g.nodes && Stuck(jobs, g, j)
    ensures WaitingNodes(Resolve(jobs, g, j), g) == WaitingNodes(jobs, g) - {j} && j in WaitingNodes(jobs, g)
  {
  }

  /** The completion loop: dispose of stuck nodes, lowest index first, until none is left. */
  ghost function Propagate(jobs: Jobs, g: Graph): Jobs
    decreases WaitingNodes(jobs, g)
  {
    match FirstStuck(jobs, g, 0)
    case None => jobs
    case Some(j) =>
      ResolveShrinks(jobs, g, j);
      Propagate(Resolve(jobs, g, j), g)
  }

  /** The loop only stops once no node is stuck. */
  lemma {:induction false} PropagateSettles(jobs: Jobs, g: Graph)
    ensures Settled(Propagate(jobs, g), g)
    decreases WaitingNodes(jobs, g)
  {
    match FirstStuck(jobs, g, 0)
    case None =>
    case Some(j) =>
      ResolveShrinks(jobs, g, j);
      PropagateSettles(Resolve(jobs, g, j), g);
  }

  /** What the loop may do to one job: nothing, or the policy's disposal of a waiting node whose
      upstreams have all ended, one of them against its edge. */
  ghost predicate DisposedRightly(jobs: Jobs, after: Jobs, g: Graph, j: nat)
    requires j in jobs && j in after
  {
    after[j] == jobs[j] ||
    (&& j in g.nodes && jobs[j].life.Waiting? && after[j] == Disposed(g.policy, jobs[j])
     && (forall e :: e in g.edges && e.downstream == j ==> Finished(after, e))
     && (exists e :: e in g.edges && e.downstream == j && !Satisfied(after, e)))
  }

  lemma {:induction false} PropagateEffect(jobs: Jobs, g: Graph)
    ensures Propagate(jobs, g).Keys == jobs.Keys
    ensures forall j :: j in jobs ==> DisposedRightly(jobs, Propagate(jobs, g), g, j)
    decreases WaitingNodes(jobs, g)
  {
    match FirstStuck(jobs, g, 0)
    case None =>
    case Some(k) =>
      var next := Resolve(jobs, g, k);
      var after := Propagate(next, g);
      ResolveShrinks(jobs, g, k);
      PropagateEffect(next, g);
      forall j | j in jobs ensures DisposedRightly(jobs, after, g, j) {
        assert DisposedRightly(next, after, g, j);
        if j == k { VerdictStays(jobs, next, after, g, k); }
      }
  }

  /** Ended upstreams stay as they are, so the verdict on a resolved node stands. */
  lemma VerdictStays(jobs: Jobs, next: Jobs, after: Jobs, g: Graph, k: nat)
    requires Stuck(jobs, g, k) && next == Resolve(jobs, g, k) && after.Keys == next.Keys
    requires forall j :: j in next ==> DisposedRightly(next, after, g, j)
    ensures forall e :: e in g.edges && e.downstream == k ==> Finished(after, e)
    ensures exists e :: e in g.edges && e.downstream == k && !Satisfied(after, e)
  {
    forall e | e in g.edges && e.downstream == k
      ensures Finished(after, e) && (Satisfied(after, e) <==> Satisfied(jobs, e))
    {
      assert DisposedRightly(next, after, g, e.upstream);
    }
  }

  // ----- the order of picks does not matter

  lemma StuckStays(jobs: Jobs, g: Graph, a: nat, b: nat)
    requires Stuck(jobs, g, a) && Stuck(jobs, g, b) && a != b
    ensures Stuck(Resolve(jobs, g, a), g, b)
  {
    var next := Resolve(jobs, g, a);
    forall e | e in g.edges && e.downstream == b
      ensures Finished(next, e) && (Satisfied(next, e) <==> Satisfied(jobs, e))
    {
      assert Finished(jobs, e) && e.upstream != a;
    }
  }

  lemma ResolveCommutes(jobs: Jobs, g: Graph, a: nat, b: nat)
    requires a in jobs && b in jobs && a != b
    ensures Resolve(Resolve(jobs, g, a), g, b) == Resolve(Resolve(jobs, g, b), g, a)
  {
  }

  /** While a node is stuck the loop takes a turn. */
  lemma LoopTurns(jobs: Jobs, g: Graph, c: nat) returns (first: nat)
    requires c in g.nodes && Stuck(jobs, g, c)
    ensures first in g.nodes && Stuck(jobs, g, first)
    ensures Propagate(jobs, g) == Propagate(Resolve(jobs, g, first), g)
  {
    var pick := FirstStuck(jobs, g, 0);
    if pick.None? { assert false; }
    first := pick.value;
  }

  /** Starting the loop with any stuck node instead of the first one leads to the same end. */
  lemma {:induction false} AnyPick(jobs: Jobs, g: Graph, c: nat)
    requires c in g.nodes && Stuck(jobs, g, c)
    ensures Propagate(Resolve(jobs, g, c), g) == Propagate(jobs, g)
    decreases WaitingNodes(jobs, g)
  {
    var f := LoopTurns(jobs, g, c);
    if f != c {
      var x, y := Resolve(jobs, g, f), Resolve(jobs, g, c);
      assert Propagate(Resolve(x, g, c), g) == Propagate(x, g) by {
        ResolveShrinks(jobs, g, f);
        StuckStays(jobs, g, f, c);
        AnyPick(x, g, c);
      }
      assert Propagate(Resolve(y, g, f), g) == Propagate(y, g) by {
        ResolveShrinks(jobs, g, c);
        StuckStays(jobs, g, c, f);
        AnyPick(y, g, f);
      }
      ResolveCommutes(jobs, g, f, c);
    }
  }

  /** A run of the loop that picks stuck nodes in an arbitrary order. */
  ghost predicate Picks(jobs: Jobs, g: Graph, picks: seq<nat>) {
    picks == [] ||
    (picks[0] in g.nodes && Stuck(jobs, g, picks[0]) && Picks(Resolve(jobs, g, picks[0]), g, picks[1..]))
  }

  ghost function AfterPicks(jobs: Jobs, g: Graph, picks: seq<nat>): Jobs
    requires Picks(jobs, g, picks)
  {
    if picks == [] then jobs else AfterPicks(Resolve(jobs, g, picks[0]), g, picks[1..])
  }

  /** However the stuck nodes are picked, the loop takes at most one turn per waiting node and, once
      none is stuck, ends in the same dispositions. */
  lemma {:induction false} PropagationIsConfluent(jobs: Jobs, g: Graph, picks: seq<nat>)
    requires Picks(jobs, g, picks)
    ensures |picks| <= |WaitingNodes(jobs, g)|
    ensures Settled(AfterPicks(jobs, g, picks), g) ==> AfterPicks(jobs, g, picks) == Propagate(jobs, g)
  {
    if picks == [] {
      if Settled(jobs, g) && FirstStuck(jobs, g, 0).Some? { assert false; }
    } else {
      ResolveShrinks(jobs, g, picks[0]);
      PropagationIsConfluent(Resolve(jobs, g, picks[0]), g, picks[1..]);
      AnyPick(jobs, g, picks[0]);
    }
  }
}
