/** The dependency predicate, as the four queries that spell it out evaluate it.

    Each copy works on nullable columns under SQL's three-valued logic. They agree except when a terminal
    upstream has a NULL outcome, which the lifecycle rules out. */
module EdgePredicates {
  import opened Base
  import opened Domain

  datatype Tri = Yes | No | Unknown

  function And(a: Tri, b: Tri): Tri {
    if a == No || b == No then No else if a == Unknown || b == Unknown then Unknown else Yes
  }

  function Or(a: Tri, b: Tri): Tri {
    if a == Yes || b == Yes then Yes else if a == Unknown || b == Unknown then Unknown else No
  }

  function Not(a: Tri): Tri {
    match a case Yes => No case No => Yes case Unknown => Unknown
  }

  function Known(b: bool): Tri { if b then Yes else No }

  /** The two upstream columns the queries read. */
  datatype Upstream = Upstream(terminal: bool, outcome: Option<Outcome>)

  function Equals(column: Option<Outcome>, value: Outcome): Tri {
    if column.None? then Unknown else Known(column.value == value)
  }

  /** column = ANY(list), and column IN (list): NULL matches nothing in an empty list. */
  function EqualsAny(column: Option<Outcome>, list: seq<Outcome>): Tri {
    if list == [] then No else if column.None? then Unknown else Known(column.value in list)
  }

  const FAILURES: seq<Outcome> := [Failure, TimedOut, Aborted, Lost]

  function Matches(edge: Edge, upstream: Upstream): Tri {
    Or(Or(Or(
      Known(edge.condition == AnyTerminal),
      And(Known(edge.condition == OnSuccess), Equals(upstream.outcome, Success))),
      And(Known(edge.condition == OnFailure), EqualsAny(upstream.outcome, FAILURES))),
      And(Known(edge.condition == OnOutcomes), EqualsAny(upstream.outcome, edge.outcomes)))
  }

  datatype EdgeState = WaitingEdge | SatisfiedEdge | UnsatisfiedEdge

  /** What the predicate means: the upstream ended with an outcome the condition names. */
  function Meaning(edge: Edge, upstream: Upstream): EdgeState {
    if !upstream.terminal then WaitingEdge
    else if Holds(edge, upstream.outcome) then SatisfiedEdge else UnsatisfiedEdge
  }

  predicate Holds(edge: Edge, outcome: Option<Outcome>) {
    match edge.condition
    case AnyTerminal => true
    case OnSuccess => outcome == Some(Success)
    case OnFailure => outcome.Some? && outcome.value in FAILURES
    case OnOutcomes => outcome.Some? && outcome.value in edge.outcomes
  }

  // ----- the four copies

  /** The coordinator holds a job back while this row is selected: a WHERE clause keeps only Yes. */
  function CoordinatorBlocks(edge: Edge, upstream: Upstream): bool {
    Or(Known(!upstream.terminal), Not(Matches(edge, upstream))) == Yes
  }

  /** The completion loop's two subqueries: an unfinished upstream, and a refuted edge. */
  function CompletionWaits(edge: Edge, upstream: Upstream): bool { !upstream.terminal }

  function CompletionRefutes(edge: Edge, upstream: Upstream): bool {
    Not(Matches(edge, upstream)) == Yes
  }

  /** The dependency loader's column; NULL cannot be scanned into its boolean. */
  function LoaderSatisfied(edge: Edge, upstream: Upstream): Option<bool> {
    match And(Known(upstream.terminal), Matches(edge, upstream))
    case Yes => Some(true)
    case No => Some(false)
    case Unknown => None
  }

  /** The monitoring CASE: the second branch needs Yes, everything else falls through. */
  function MonitorState(edge: Edge, upstream: Upstream): EdgeState {
    if !upstream.terminal then WaitingEdge
    else if Matches(edge, upstream) == Yes then SatisfiedEdge else UnsatisfiedEdge
  }

  /** All four copies classify the edge as its meaning does. */
  predicate Agree(edge: Edge, upstream: Upstream) {
    var meaning := Meaning(edge, upstream);
    && (CoordinatorBlocks(edge, upstream) <==> meaning != SatisfiedEdge)
    && (!CompletionWaits(edge, upstream) ==> (CompletionRefutes(edge, upstream) <==> meaning == UnsatisfiedEdge))
    && (CompletionWaits(edge, upstream) <==> meaning == WaitingEdge)
    && LoaderSatisfied(edge, upstream) == Some(meaning == SatisfiedEdge)
    && MonitorState(edge, upstream) == meaning
  }

  /** The copies agree unless a terminal upstream has no outcome and the condition has to look at it. */
  lemma AgreeExactly(edge: Edge, upstream: Upstream)
    ensures Agree(edge, upstream) <==>
      (upstream.terminal && upstream.outcome.None? ==>
        edge.condition == AnyTerminal || (edge.condition == OnOutcomes && edge.outcomes == []))
  {
    assert FAILURES != [];
  }

  /** A success edge over such a row: the coordinator would dispatch past it while monitoring shows it unsatisfied. */
  lemma NullOutcomeDisagrees(up: nat, down: nat)
    ensures var edge, row := Edge(up, down, OnSuccess, []), Upstream(true, None);
      !CoordinatorBlocks(edge, row) && MonitorState(edge, row) == UnsatisfiedEdge && LoaderSatisfied(edge, row).None?
  {
  }

  function UpstreamOf(life: Life): Upstream {
    Upstream(Terminal(life), OutcomeOf(life))
  }

  /** No lifecycle value has the columns on which the copies differ. */
  lemma LifecyclesAgree(edge: Edge, life: Life)
    ensures Agree(edge, UpstreamOf(life))
  {
    AgreeExactly(edge, UpstreamOf(life));
  }
}
