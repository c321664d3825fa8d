/** Which job may be offered, to whom, and what that keeps within its limits along every run. */
module Quotas {
  import opened Base
  import opened Domain
  import opened EdgePredicates
  import opened Propagation
  import opened ControlPlane
  import opened Invariants
  import opened Dispatching
  import opened Fairness

  // ----- namespace limits

  lemma ActiveShrinks(w: World, v: World, n: nat)
    requires Settling(w, v)
    ensures ActiveInNamespace(v.jobs, n) <= ActiveInNamespace(w.jobs, n)
  {
    forall j | j in ActiveInNamespace(v.jobs, n) ensures j in ActiveInNamespace(w.jobs, n) {
      assert Quiet(w.jobs[j], v.jobs[j]);
    }
  }

  lemma SubmissionAddsNoActive(w: World, v: World, ids: seq<nat>, specs: seq<Spec>, n: nat)
    requires |ids| == |specs| && v.jobs == AddJobs(w.jobs, ids, specs) && forall j :: j in ids ==> j !in w.jobs
    ensures ActiveInNamespace(v.jobs, n) <= ActiveInNamespace(w.jobs, n)
  {
    AddJobsKeeps(w.jobs, ids, specs);
  }

  ghost predicate WithinQuota(w: World, n: nat) {
    n in w.namespaces ==> |ActiveInNamespace(w.jobs, n)| <= w.namespaces[n].maxActive
  }

  lemma SubmissionQuota(w: World, s: Step, n: nat)
    requires WithinQuota(w, n) && (s.SubmitJobStep? || s.SubmitCollectionStep? || s.SubmitGraphStep?)
    ensures WithinQuota(Apply(w, s), n)
  {
    var v := Apply(w, s);
    if v != w {
      var ids, specs := if s.SubmitJobStep? then [s.id] else s.ids, if s.SubmitJobStep? then [s.spec] else s.specs;
      if s.SubmitJobStep? { assert AddJobs(w.jobs, ids[..0], specs[..0]) == w.jobs; }
      SubmissionAddsNoActive(w, v, ids, specs, n);
      SubsetSize(ActiveInNamespace(v.jobs, n), ActiveInNamespace(w.jobs, n));
    }
  }

  lemma OfferQuota(w: World, s: Step, n: nat)
    requires WithinQuota(w, n) && s.OfferStep?
    ensures WithinQuota(Apply(w, s), n)
  {
    var v := Apply(w, s);
    if v != w {
      var m := w.jobs[s.j].spec.namespace;
      if n == m {
        assert ActiveInNamespace(v.jobs, n) <= ActiveInNamespace(w.jobs, n) + {s.j};
        SubsetSize(ActiveInNamespace(v.jobs, n), ActiveInNamespace(w.jobs, n) + {s.j});
      } else {
        assert ActiveInNamespace(v.jobs, n) <= ActiveInNamespace(w.jobs, n);
        SubsetSize(ActiveInNamespace(v.jobs, n), ActiveInNamespace(w.jobs, n));
      }
    }
  }

  lemma StepQuota(w: World, s: Step, n: nat)
    requires WithinQuota(w, n)
    ensures WithinQuota(Apply(w, s), n)
  {
    if s.OfferStep? {
      OfferQuota(w, s, n);
    } else if Dispatches(s) {
      SubmissionQuota(w, s, n);
    } else {
      StepSettling(w, s);
      ActiveShrinks(w, Apply(w, s), n);
      SubsetSize(ActiveInNamespace(Apply(w, s).jobs, n), ActiveInNamespace(w.jobs, n));
    }
  }

  /** Along every run a namespace keeps its limit, and never has more active jobs than that. */
  lemma {:induction false} NamespaceLimitsHold(namespaces: map<nat, NamespacePolicy>, steps: seq<Step>, n: nat)
    requires n in namespaces
    ensures var w := Run(Empty(namespaces), steps);
      && n in w.namespaces && w.namespaces[n].maxActive == namespaces[n].maxActive
      && |ActiveInNamespace(w.jobs, n)| <= namespaces[n].maxActive
  {
    if steps == [] {
      assert ActiveInNamespace(Empty(namespaces).jobs, n) == {};
    } else {
      var before, last := steps[..|steps| - 1], steps[|steps| - 1];
      NamespaceLimitsHold(namespaces, before, n);
      StepQuota(Run(Empty(namespaces), before), last, n);
      StepCursors(Run(Empty(namespaces), before), last);
    }
  }

  // ----- who may be offered

  /** The agents that may take a member of a Slurm array are those that have its other executions. */
  ghost predicate SharesArray(w: World, j: nat, agent: nat)
    requires j in w.jobs
  {
    forall c :: w.jobs[j].spec.group == InCollection(c) && c in w.collections && w.collections[c].slurmArray ==>
      forall i :: i in w.collections[c].items && i in w.jobs && Dispatched(w.jobs[i].life) ==>
        w.jobs[i].life.dispatch.agent == agent
  }

  /** The group of the job has room, and its dependencies ended as they had to. */
  ghost predicate GroupHasRoom(w: World, j: nat)
    requires j in w.jobs
  {
    && (forall c :: w.jobs[j].spec.group == InCollection(c) ==>
         c in w.collections
         && (w.collections[c].slurmArray || |ActiveAmong(w.jobs, w.collections[c].items)| < w.collections[c].maxActive))
    && (forall g :: w.jobs[j].spec.group == InGraph(g) ==>
         && g in w.graphs && |ActiveAmong(w.jobs, w.graphs[g].nodes)| < w.graphs[g].maxActive
         && forall e :: e in w.graphs[g].edges && e.downstream == j ==>
              e.upstream in w.jobs && Terminal(w.jobs[e.upstream].life)
              && Holds(e, OutcomeOf(w.jobs[e.upstream].life)))
  }

  /** A job that may be offered now: dispatch is not on hold, the job is waiting and wanted, its namespace
      and its group have room, and some agent that passed the outside checks may take it. */
  ghost predicate MayGo(w: World, env: Surroundings, j: nat) {
    && !env.hold && j in w.jobs && w.jobs[j].life.Waiting? && w.jobs[j].desire == ToRun
    && w.jobs[j].spec.namespace in w.namespaces
    && |ActiveInNamespace(w.jobs, w.jobs[j].spec.namespace)| < w.namespaces[w.jobs[j].spec.namespace].maxActive
    && GroupHasRoom(w, j)
    && exists a :: j in env.agents && a in env.agents[j] && SharesArray(w, j, a)
  }

  /** With arrays that share an agent, the first execution speaks for all of them. */
  lemma AffineExactly(w: World, j: nat, agent: nat)
    requires CollectionsSafe(w) && j in w.jobs
    ensures Affine(w, j, agent) <==> SharesArray(w, j, agent)
  {
    if w.jobs[j].spec.group.InCollection? && w.jobs[j].spec.group.collection in w.collections {
      var c := w.jobs[j].spec.group.collection;
      assert CollectionSafe(w.jobs, w.collections[c]);
    }
  }

  lemma RoomExactly(w: World, j: nat)
    requires j in w.jobs
    ensures GroupAllows(w, j) <==> GroupHasRoom(w, j)
  {
  }

  /** The claim's filter selects exactly the jobs that may go. */
  lemma EligibleExactly(w: World, env: Surroundings, j: nat)
    requires CollectionsSafe(w)
    ensures Eligible(w, env, j) <==> MayGo(w, env, j)
  {
    if j in w.jobs {
      RoomExactly(w, j);
      forall a ensures Affine(w, j, a) <==> SharesArray(w, j, a) { AffineExactly(w, j, a); }
    }
  }

  /** The agent is the first listed one that may take the job. */
  ghost predicate FirstOf(w: World, j: nat, agents: seq<nat>, agent: nat)
    requires j in w.jobs
  {
    exists k :: 0 <= k < |agents| && agents[k] == agent && SharesArray(w, j, agent)
      && forall i :: 0 <= i < k ==> !SharesArray(w, j, agents[i])
  }

  lemma FirstOfRest(w: World, j: nat, agents: seq<nat>, agent: nat)
    requires j in w.jobs && agents != [] && !SharesArray(w, j, agents[0]) && FirstOf(w, j, agents[1..], agent)
    ensures FirstOf(w, j, agents, agent)
  {
    var k :| 0 <= k < |agents[1..]| && agents[1..][k] == agent && SharesArray(w, j, agent)
      && forall i :: 0 <= i < k ==> !SharesArray(w, j, agents[1..][i]);
    forall i | 0 <= i < k + 1 ensures !SharesArray(w, j, agents[i]) {
      if i > 0 { assert agents[i] == agents[1..][i - 1]; }
    }
    assert agents[k + 1] == agent;
  }

  /** Agents are tried in the order given. */
  lemma {:induction false} FirstAffineIsFirst(w: World, j: nat, agents: seq<nat>)
    requires CollectionsSafe(w) && j in w.jobs
    ensures match FirstAffine(w, j, agents)
      case None => forall a :: a in agents ==> !SharesArray(w, j, a)
      case Some(agent) => FirstOf(w, j, agents, agent)
  {
    if agents != [] {
      AffineExactly(w, j, agents[0]);
      FirstAffineIsFirst(w, j, agents[1..]);
      if !Affine(w, j, agents[0]) && FirstAffine(w, j, agents[1..]).Some? {
        FirstOfRest(w, j, agents, FirstAffine(w, j, agents[1..]).value);
      }
    }
  }

  ghost predicate SameElsewhere(w: World, v: World, j: nat, n: nat) {
    && v == w.(jobs := v.jobs, namespaces := v.namespaces) && v.jobs.Keys == w.jobs.Keys
    && v.namespaces.Keys == w.namespaces.Keys
    && (forall i :: i in w.jobs && i != j ==> v.jobs[i] == w.jobs[i])
    && (forall m :: m in w.namespaces && m != n ==> v.namespaces[m] == w.namespaces[m])
  }

  /** An offer that changes anything is of a job that may go, to the first agent that may take it; it writes
      the given ids, digest and instant, moves its namespace's cursor, and touches nothing else. In
      particular an offer on hold changes nothing. */
  lemma OfferMeans(w: World, env: Surroundings, j: nat, run: nat, execution: nat, delivery: nat, digest: nat, now: nat)
    requires CollectionsSafe(w)
    ensures var v := Offer(w, env, j, run, execution, delivery, digest, now);
      v != w ==>
        && MayGo(w, env, j) && j in v.jobs && v.jobs[j].life.Offered?
        && FirstOf(w, j, env.agents[j], v.jobs[j].life.dispatch.agent)
        && var n := w.jobs[j].spec.namespace; var agent := v.jobs[j].life.dispatch.agent;
           && SameElsewhere(w, v, j, n)
           && v.jobs[j] == Job(w.jobs[j].spec, ToRun, w.jobs[j].revision + 1,
                               Offered(Dispatch(run, execution, delivery, agent, digest, now), 1))
           && v.namespaces[n] == NamespacePolicy(w.namespaces[n].maxActive, Some(now))
  {
    EligibleExactly(w, env, j);
    if Offer(w, env, j, run, execution, delivery, digest, now) != w { FirstAffineIsFirst(w, j, env.agents[j]); }
  }

  /** The offered job comes before every other that may go: its namespace was never served, or was served
      longer ago; among equals it was submitted earlier, or at the same time under a lower id. */
  lemma OfferInOrder(w: World, env: Surroundings, j: nat, run: nat, execution: nat, delivery: nat, digest: nat,
      now: nat, i: nat)
    requires CollectionsSafe(w) && Offer(w, env, j, run, execution, delivery, digest, now) != w
    requires MayGo(w, env, i) && i != j
    ensures MayGo(w, env, j)
    ensures var x, y := w.jobs[j].spec, w.jobs[i].spec;
      var a, b := w.namespaces[x.namespace].lastDispatched, w.namespaces[y.namespace].lastDispatched;
      || (a == None && b != None) || (a.Some? && b.Some? && a.value < b.value)
      || (a == b && (x.createdAt < y.createdAt || (x.createdAt == y.createdAt && j < i)))
  {
    EligibleExactly(w, env, i);
    EligibleExactly(w, env, j);
    assert Precedes(w, j, i);
  }

  /** If some job may go, one such job can be offered, under any ids not used before. */
  lemma OfferIsPossible(w: World, env: Surroundings, i: nat, run: nat, execution: nat, delivery: nat, digest: nat,
      now: nat)
    returns (j: nat)
    requires CollectionsSafe(w) && MayGo(w, env, i)
    requires forall k :: k in w.jobs && Dispatched(w.jobs[k].life) ==>
      w.jobs[k].life.dispatch.execution != execution && w.jobs[k].life.dispatch.delivery != delivery
    ensures MayGo(w, env, j)
    ensures var v := Offer(w, env, j, run, execution, delivery, digest, now);
      j in v.jobs && v.jobs[j].life.Offered? && v.jobs[j].life.dispatch.execution == execution
  {
    EligibleExactly(w, env, i);
    ClaimIsTotal(w, env);
    j :| Claimed(w, env, j);
    EligibleExactly(w, env, j);
  }
}
