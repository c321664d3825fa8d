/** Fair dispatch: which job the claim returns, and how long a namespace can be passed over. */
module Fairness {
  import opened Base
  import opened ControlPlane
  import opened Invariants

  // ----- the claim is a choice of the least eligible job

  lemma PrecedesIsTransitive(w: World, i: nat, j: nat, k: nat)
    requires forall x :: x in {i, j, k} ==> x in w.jobs && w.jobs[x].spec.namespace in w.namespaces
    requires Precedes(w, i, j) && Precedes(w, j, k)
    ensures Precedes(w, i, k)
  {
  }

  ghost function EligibleJobs(w: World, env: Surroundings): set<nat> {
    set j | j in w.jobs && Eligible(w, env, j)
  }

  /** The least of a set of eligible jobs. */
  lemma {:induction false} LeastOf(w: World, env: Surroundings, jobs: set<nat>) returns (j: nat)
    requires jobs != {} && forall i :: i in jobs ==> Eligible(w, env, i)
    ensures j in jobs && Eligible(w, env, j)
    ensures forall i :: i in jobs && i != j ==> Eligible(w, env, i) && Precedes(w, j, i)
    decreases jobs
  {
    var first :| first in jobs;
    if jobs == {first} { return first; }
    var rest := LeastOf(w, env, jobs - {first});
    if Precedes(w, rest, first) { return rest; }
    forall i | i in jobs && i != first ensures Precedes(w, first, i) {
      if i != rest { PrecedesIsTransitive(w, first, rest, i); }
    }
    return first;
  }

  /** The claim finds a row exactly when some job is eligible, and never two. */
  lemma ClaimIsTotal(w: World, env: Surroundings)
    ensures (exists j :: Claimed(w, env, j)) <==> exists j :: Eligible(w, env, j)
    ensures forall i, j :: Claimed(w, env, i) && Claimed(w, env, j) ==> i == j
  {
    if j :| Eligible(w, env, j) {
      assert j in EligibleJobs(w, env);
      var least := LeastOf(w, env, EligibleJobs(w, env));
      forall i | i != least && Eligible(w, env, i) ensures Precedes(w, least, i) { assert i in EligibleJobs(w, env); }
      assert Claimed(w, env, least);
    }
  }

  /** Within a namespace the earliest submission goes first, ties broken by id. */
  lemma EarliestGoesFirst(w: World, env: Surroundings, j: nat, i: nat)
    requires Claimed(w, env, j) && Eligible(w, env, i) && i != j && w.jobs[i].spec.namespace == w.jobs[j].spec.namespace
    ensures var x, y := w.jobs[j].spec.createdAt, w.jobs[i].spec.createdAt; x < y || (x == y && j < i)
  {
    assert Precedes(w, j, i);
  }

  // ----- bounded bypass

  /** The step offers a job. */
  ghost predicate Offers(w: World, s: Step) {
    s.OfferStep? && Claimed(w, s.env, s.j) && UnusedIds(w, s.execution, s.delivery)
  }

  ghost function Cursor(w: World, n: nat): Option<nat>
    requires n in w.namespaces
  {
    w.namespaces[n].lastDispatched
  }

  /** The dispatch happens later than every earlier one. */
  ghost predicate Ticks(w: World, now: nat) {
    forall n :: n in w.namespaces && Cursor(w, n).Some? ==> Cursor(w, n).value < now
  }

  /** If the step dispatches, its clock has advanced and it passes over an eligible job of namespace n. */
  ghost predicate PassesOver(w: World, s: Step, n: nat) {
    Offers(w, s) ==>
      && Ticks(w, s.now) && w.jobs[s.j].spec.namespace != n
      && exists i :: Eligible(w, s.env, i) && w.jobs[i].spec.namespace == n
  }

  /** Every dispatch of the run passes over an eligible job of namespace n. */
  ghost predicate Starved(w: World, steps: seq<Step>, n: nat) {
    steps != [] ==>
      && Starved(w, steps[..|steps| - 1], n)
      && PassesOver(Run(w, steps[..|steps| - 1]), steps[|steps| - 1], n)
  }

  ghost function CountOffers(w: World, steps: seq<Step>): nat {
    if steps == [] then 0 else
      var before := steps[..|steps| - 1];
      CountOffers(w, before) + if Offers(Run(w, before), steps[|steps| - 1]) then 1 else 0
  }

  /** The namespaces that may still be served before n. */
  ghost function Ahead(w: World, n: nat): set<nat>
    requires n in w.namespaces
  {
    set m | m in w.namespaces && m != n && !SoonerCursor(Cursor(w, n), Cursor(w, m))
  }

  /** Only a dispatch moves a cursor, and only its own namespace's. */
  lemma StepCursors(w: World, s: Step)
    ensures var v := Apply(w, s);
      if Offers(w, s) then
        var m := w.jobs[s.j].spec.namespace;
        v.namespaces == w.namespaces[m := w.namespaces[m].(lastDispatched := Some(s.now))]
      else v.namespaces == w.namespaces
  {
    match s {
      case SubmitJobStep(_, _) =>
      case SubmitCollectionStep(_, _, _, _, _, _) =>
      case SubmitGraphStep(_, _, _, _) =>
      case OfferStep(_, _, _, _, _, _, _) =>
      case _ => StepSettling(w, s);
    }
  }

  /** Serving m puts it behind every namespace it passed over. */
  lemma DispatchOvertakes(w: World, s: Step, n: nat)
    requires n in w.namespaces && Offers(w, s) && PassesOver(w, s, n)
    ensures var m := w.jobs[s.j].spec.namespace;
      n in Apply(w, s).namespaces && m in Ahead(w, n) && Ahead(Apply(w, s), n) == Ahead(w, n) - {m}
  {
    StepCursors(w, s);
    var i :| Eligible(w, s.env, i) && w.jobs[i].spec.namespace == n;
    assert Precedes(w, s.j, i);
  }

  lemma {:induction false} AheadShrinks(w: World, steps: seq<Step>, n: nat)
    requires n in w.namespaces && Starved(w, steps, n)
    ensures n in Run(w, steps).namespaces && CountOffers(w, steps) + |Ahead(Run(w, steps), n)| == |Ahead(w, n)|
  {
    if steps != [] {
      var before, last := steps[..|steps| - 1], steps[|steps| - 1];
      AheadShrinks(w, before, n);
      StepCursors(Run(w, before), last);
      if Offers(Run(w, before), last) { DispatchOvertakes(Run(w, before), last, n); }
      else { assert Ahead(Run(w, steps), n) == Ahead(Run(w, before), n); }
    }
  }

  /** Among k namespaces, one that holds an eligible job at every dispatch is passed over at most k - 1
      times, whatever other transactions interleave. */
  lemma BypassIsBounded(w: World, steps: seq<Step>, n: nat)
    requires n in w.namespaces && Starved(w, steps, n)
    ensures CountOffers(w, steps) <= |w.namespaces| - 1
  {
    AheadShrinks(w, steps, n);
    SubsetSize(Ahead(w, n), w.namespaces.Keys - {n});
  }
}
