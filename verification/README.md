# Jobman Control: a verified model

Jobman Control is a control plane for batch jobs. Clients submit jobs, collections and dependency graphs;
a coordinator offers work to agents; agents accept it, report events and upload logs; operators map
directory groups to namespace roles. This project models the parts of it whose correctness spans several
transactions, and proves what those parts promise. `dafny verify dfyconfig.toml` covers every file.

## How the model is laid out

| area | modules |
|---|---|
| work items, dependency predicates, propagation | `Domain`, `EdgePredicates`, `Propagation` |
| the transactions as one state machine, and runs of it | `ControlPlane` |
| what every transaction keeps | `Invariants`, `Preservation`, `Dispatching` |
| what holds along every run | `Guarantees`, `Deliveries`, `Cycles`, `Fairness`, `Quotas`, `RequestTexts`, `Aggregates` |
| what each transaction decides and writes, spelled out on the rows | `Rulings`, `Effects`, `LogRulings`, `DirectoryRulings` |
| the four rows of a job and the store that updates them | `Tables`, `LifecycleStore` |
| admission of graphs | `Digraphs`, `GraphRequests` |
| out-of-order log chunks | `LogAssembly`, `LogStore` |
| canonical decimal numbers | `CanonicalNumbers` |
| LDAP framing (section 5.1 of RFC 4511) | `BerGuard` |
| directory snapshots, mappings and grants | `DirectorySnapshots`, `DirectoryMappings`, `Reconciliation`, `DirectoryStore`, `DirectorySync` |

A job, its run, its execution and its assignment are four rows that the schema ties one to one. `Domain`
holds them as a single lifecycle value, `Tables` gives the rows of each value and reads the value back,
and `LifecycleStore` runs the source's guarded updates row by row and proves that each transaction is the
corresponding step of `ControlPlane`, so that runs of rows are runs of the state machine. A run is any sequence of steps from an empty store: submissions,
offers, acceptances, events, cancellations, acknowledgements, stale marks and log commits, by any callers
in any order. A transaction locks the rows it decides on, so it is one atomic step; a failed one changes
nothing.

Identifiers, digests and instants of the lifecycle are opaque labels, written as natural numbers. The
agents that pass the claim query's checks on target, owner, capability and session are an input of each
offer, as is whether dispatch is on hold. Clocks are inputs. The directory is a history of objects by
instant, together with a server that answers each search truly for the instant at which it happens.

## What the proofs bring out

- The store's own graph check does not look for cycles (`internal/store/postgres/graphs.go:147-181`).
  Progress rests on the decoder's check, so the two are composed: `Dispatching.StoredGraphAcyclic` carries
  acyclicity from request to stored edges, and `GraphRequests.StoreAdmitsCycle` with
  `Cycles.TrappedForever` shows what happens without it.
- The four spellings of the edge predicate differ on a terminal upstream with a NULL outcome.
  `EdgePredicates.AgreeExactly` says exactly when; the lifecycle never produces such a row.
- The length decoder lets lengths up to the packet bound plus 255 through, because it tests the prefix
  before the last octet; frames stay within the bound by a later test. A constructed element at depth 16
  is refused even when it is empty.
- A replayed acceptance returns the execution's current revision rather than the one first returned.
- Cancelling a single job propagates to its graph but not to its collection, and slurm-array collections
  are exempt from the active limit; the theorems are stated accordingly.
- A snapshot is not always the membership of one instant: an account that exists, and is listed, only
  between the two account passes is left out (`DirectorySnapshots.MissedBetween`). A listed account is
  reported exactly if the directory had it at its first pass (`DirectorySnapshots.Exact`).

## Model

| member | source | states |
|---|---|---|
| `Guarantees.NoDeadlock` | internal/store/postgres/graphs.go:437-517 | In every reachable state of every run, no waiting node sits behind ended upstreams with an unsatisfied edge, and a graph with an unfinished node has an active node or a wanted, dispatchable one with room under its limit |
| `Guarantees.NoDeadlockIn` | internal/store/postgres/coordinator.go:283-305 | The same for any state that satisfies the invariant: the lowest waiting node of a topological order is ready |
| `Cycles.WaitingCycleIsDead` | internal/store/postgres/coordinator.go:292-303 | In any state, on a cycle of waiting nodes none is dispatchable and none is disposed of |
| `Cycles.TrappedForever` | internal/store/postgres/graphs.go:437-517 | Why acyclicity is needed: without a cancellation on it, the nodes of a stored waiting cycle stay waiting in every continuation of every kind of transaction |
| `Guarantees.TerminalIsFinal` | internal/store/postgres/executions.go:244-352 | A terminal job has an outcome, and no continuation changes it in any column |
| `Guarantees.DispatchedStaysSatisfied` | internal/store/postgres/coordinator.go:283-305 | A node that was ever dispatched has every incoming edge satisfied, then and at every later point of the run |
| `Guarantees.LimitsHold` | internal/store/postgres/coordinator.go:265-305 | In every reachable state active members never exceed max_active, for every graph and every individual-mode collection |
| `Guarantees.ArraysShareAgent` | internal/store/postgres/coordinator.go:247-258 | In every reachable state all executions of one slurm-array collection belong to one agent |
| `Guarantees.LaunchedAtMostOnce` | internal/store/postgres/executions.go:51-125 | Of two granted acceptances of a job anywhere in a run, the later is a replay of the same authorization id, execution, agent, generation, digest and time, at no lower revision |
| `Guarantees.NoLaunchAfterCancel` | internal/store/postgres/executions.go:598-634 | Once a cancellation commits before acceptance, no continuation grants an acceptance of the job |
| `Guarantees.CancelEndsUnaccepted` | internal/store/postgres/executions.go:598-634 | Cancelling a job that no agent accepted ends it without an authorization |
| `Deliveries.EventsApplyOnce` | internal/store/postgres/executions.go:182-352 | At-least-once delivery, exactly-once effect: whatever a run retries, repeats or sends out of sequence, an accepted execution equals one in-order application of the deliveries that the run had accepted as new, their sequences are 1..last, and a log-backed one has ended only with both streams complete |
| `Deliveries.StoredIsDelivered` | internal/store/postgres/executions.go:217-231 | Along every run the events stored for a job are exactly its deliveries accepted as new, in order: no other transaction adds, drops or changes one |
| `Deliveries.EventsTellAll` | internal/store/postgres/executions.go:244-352 | An execution has ended with the outcome of its last stored event exactly when that is its only completion, and is running exactly when some stored event showed so |
| `Deliveries.RedeliveryIsReplay` | internal/store/postgres/executions.go:182-188 | An accepted event delivered again at any later point of the run is answered as a replay and changes nothing |
| `Deliveries.OutOfSequenceIsRefused` | internal/store/postgres/executions.go:189-191 | A new event that is not next in sequence is refused without effect |
| `Guarantees.CancelGraphStops` | internal/store/postgres/graphs.go:559-592 | After a graph cancellation every node has ended, or is with an agent, wanted cancelled and has its cancel action |
| `Guarantees.FailFastStops` | internal/store/postgres/collections.go:464-502 | After a member of a fail-fast collection completes without success, the same holds for every member |
| `Guarantees.StopIsClosed` | internal/store/postgres/collections.go:513-597 | From then on no continuation offers or newly authorizes a member, and unfinished members keep their action |
| `Quotas.NamespaceLimitsHold` | internal/store/postgres/coordinator.go:264-268 | Along every run each namespace keeps its max_active_jobs, and the number of its active jobs never exceeds it |
| `Quotas.EligibleExactly` | internal/store/postgres/coordinator.go:262-305 | In every state whose arrays share an agent, as in all reachable ones, the claim's filter selects exactly the jobs that may go: not on hold, waiting and wanted, room in the namespace and the group, dependencies ended as they had to, and an agent that has the array's other executions |
| `Quotas.FirstAffineIsFirst` | internal/store/postgres/coordinator.go:247-260 | The agent is the first listed one that may take the job, and there is none exactly if no listed one may |
| `Quotas.OfferMeans` | internal/store/postgres/coordinator.go:85-130 | An offer changes something only for a job that may go: it goes to the first agent that may take it with the given ids, digest and time, moves its namespace's cursor and touches nothing else; on hold it changes nothing |
| `Quotas.OfferInOrder` | internal/store/postgres/coordinator.go:306-307 | The offered job precedes every other that may go: by namespace cursor, never-served first, then submission time, then id |
| `Quotas.OfferIsPossible` | internal/store/postgres/coordinator.go:262-308 | If some job may go, an offer under unused ids succeeds for one that may |
| `Rulings.AcceptExactly` | internal/store/postgres/executions.go:51-75 | An acceptance is granted if and only if caller and request name the offered agent and the generation, and the request the offered execution, delivery and digest, in the job's namespace, and the job is offered and wanted, or accepted by the same request; it is a replay exactly in the second case |
| `Rulings.AcceptRefusals` | internal/store/postgres/executions.go:45-75 | Each refusal happens exactly in its case, and changes nothing |
| `Rulings.AcceptWrites` | internal/store/postgres/executions.go:76-125 | A first grant makes the execution live at the next revision, not running and without events, and touches nothing else; the reply is what is stored |
| `Rulings.RecordExactly` | internal/store/postgres/executions.go:173-216 | An event is taken as new if and only if the caller's live execution, and no other, has an event of its id, it is next in sequence, and its kind fits: each of the six kinds spelled out |
| `Rulings.RecordRefusals` | internal/store/postgres/executions.go:173-226 | In every other case nothing changes; a replay is answered exactly for the stored event, and a digest conflict exactly for another one under its id |
| `Rulings.EventIdsAreUnique` | internal/store/postgres/executions.go:217-226 | Along every run no two stored events, of one execution or two, share an id |
| `Rulings.DeliveriesInOrder` | internal/store/postgres/executions.go:432-445 | Along every run no accepted event follows a completion, and no started, submitted or uncertain event follows one that showed the execution running |
| `Rulings.CompletionIsPossible` | internal/store/postgres/executions.go:432-445 | A live execution, once its streams are complete if it has a log store, can always be ended by a completion event, with any outcome |
| `Rulings.CompletionEnds` | internal/store/postgres/executions.go:244-352 | A completion ends its execution with the reported outcome, one event and one revision more |
| `Effects.CancelAllMeans` | internal/store/postgres/collections.go:464-597 | Cancelling members stops exactly them: waiting work is dropped, offers are withdrawn, live work is asked to stop with one pending action where there was none, and ended work is left alone |
| `Effects.CancelGraphMeans` | internal/store/postgres/graphs.go:559-622 | Cancelling a graph does that to its nodes and to no other job, and raises its revision |
| `Effects.CancelJobMeans` | internal/store/postgres/executions.go:545-695 | Cancelling a job does that to the job and, where it ends, completes it in its graph; a job that ended or was told to stop before is left alone |
| `Effects.CompleteGraphMeans` | internal/store/postgres/graphs.go:437-517 | Completing a node changes only waiting nodes of its own graph, which are given up at their next revision, and the graph's revision, and leaves the graph settled |
| `Effects.ObservationMeans` | internal/store/postgres/executions.go:244-352 | An observation appends one event, raises the revisions by one and shows the execution running from the first event that says so; nothing else changes |
| `Effects.CompletionMeans` | internal/store/postgres/collections.go:446-511 | A completion tells the group: a graph gives up what can no longer run, a fail-fast collection stops all items unless the outcome is success, any other collection only changes its revision, and a single job affects no other |
| `Effects.AcknowledgeMeans` | internal/store/postgres/executions.go:508-541 | Only the agent that holds the execution can acknowledge its action, and nothing else changes |
| `Effects.MarkStaleMeans` | internal/store/postgres/reconciliation.go:52-66 | A stale mark raises the two revisions of a live execution and nothing else |
| `Effects.SubmitJobMeans` | internal/domain/job.go:31-34 | A job with a new id in a known namespace is stored waiting and wanted at revision 1; any other submission changes nothing |
| `Effects.SubmitCollectionMeans` | internal/store/postgres/collections.go:21-136 | A collection is stored whole, its limit between 1 and its size, or not at all |
| `Effects.SubmitGraphMeans` | internal/store/postgres/graphs.go:22-145 | A graph is stored whole, from an admitted request, or not at all |
| `RequestTexts.NamesRoundTrip` | contracts/jobman/v1alpha1/validate.go:329-333 | The outcome names that are admitted are exactly the wire names of the outcomes, and each is read as its outcome |
| `RequestTexts.StoredEdgeMeans` | internal/store/postgres/graphs.go:113-125 | A stored edge joins the jobs of the two named nodes and holds for an outcome exactly if its text says so: any-terminal, success, failure (four outcomes) or a listed name |
| `RequestTexts.GraphKeepsRequest` | internal/store/postgres/graphs.go:113-125 | Along every run a stored graph stays the one requested, at a later revision |
| `RequestTexts.DispatchedAsRequested` | internal/store/postgres/coordinator.go:292-303 | Along every run, a dispatched node had each dependency end as the text of the request asks |
| `RequestTexts.GivenUpIsJustified` | internal/store/postgres/graphs.go:456-499 | In every reachable state a job was given up only as a node of a graph, as its policy says, after all its upstreams ended and one of them against its edge |
| `RequestTexts.GivenUpAsRequested` | internal/store/postgres/graphs.go:486-492 | Along every run a node that was given up shows what the policy text says: skip gives skipped, aborted and run; blocked gives blocked, aborted and run; cancel gives cancelled by policy, cancelled and cancel |
| `RequestTexts.FateAsRequested` | internal/store/postgres/graphs.go:454-508 | Along every run, told by the request's text alone: a node was dispatched only with all dependencies as asked, was given up only with all ended and one not as asked, and waits with all ended only if all are as asked |
| `Invariants.RunOnward` | internal/store/postgres/executions.go:66-110 | Along every run ranks never fall, terminal rows never change, and dispatch and acceptance columns, once set, are fixed |
| `Dispatching.Reachable` | internal/store/postgres/coordinator.go:66-164 | Every state of every run satisfies the whole invariant: coupling, links, limits, satisfied dispatches, settled graphs, unique ids, actions, logs |
| `Dispatching.StepKeeps` | internal/store/postgres/executions.go:149-387 | Each of the eleven transactions keeps the invariant |
| `Dispatching.StoredGraphAcyclic` | internal/store/postgres/graphs.go:113-125 | The graph stored for an admitted request is acyclic: the decoder's verdict on names carries over to stored job ids |
| `Dispatching.OfferKeeps` | internal/store/postgres/coordinator.go:66-164 | Offering a claimed job keeps the invariant: limits, satisfied edges, array affinity |
| `Preservation.RecordKeeps` | internal/store/postgres/executions.go:149-387 | Recording any event, with fail-fast cancellation and graph propagation, keeps the invariant |
| `Preservation.CancelJobKeeps` | internal/store/postgres/executions.go:545-695 | Cancelling a job keeps the invariant, in particular settles its graph |
| `Preservation.CancelGraphKeeps` | internal/store/postgres/graphs.go:521-622 | Cancelling a graph keeps the invariant although it runs no propagation |
| `Preservation.AcceptKeeps` | internal/store/postgres/executions.go:20-132 | Accepting keeps the invariant |
| `Preservation.MarkStaleKeeps` | internal/store/postgres/reconciliation.go:15-80 | Marking an observation stale keeps the invariant |
| `Preservation.AcknowledgeKeeps` | internal/store/postgres/executions.go:508-541 | Acknowledging an action keeps the invariant |
| `Propagation.PropagateSettles` | internal/store/postgres/graphs.go:454-508 | The completion loop ends only when no waiting node has all upstreams terminal and an unsatisfied edge |
| `Propagation.PropagateEffect` | internal/store/postgres/graphs.go:486-499 | It changes a job only by the policy's disposal of a waiting node whose upstreams ended and refute an edge in the final state |
| `Propagation.PropagationIsConfluent` | internal/store/postgres/graphs.go:454-508 | Whatever order stuck nodes are picked in, the loop takes at most one turn per waiting node and ends in the same dispositions |
| `EdgePredicates.AgreeExactly` | internal/store/postgres/graph_monitoring.go:16-21 | Under three-valued logic the four spellings of the edge predicate agree if and only if no terminal upstream lacks an outcome that the condition must look at |
| `EdgePredicates.NullOutcomeDisagrees` | internal/store/postgres/coordinator.go:292-303 | On such a row the coordinator would dispatch past a success edge that monitoring shows unsatisfied |
| `Aggregates.CopiesAgree` | internal/store/postgres/graphs.go:398-433 | In every reachable state the four spellings classify each stored edge alike |
| `Aggregates.GraphReport` | internal/store/postgres/graphs.go:280-349 | In every reachable state each count is the number of nodes it is about, the phase counts add up to the total, Succeeded+Failed+Canceled+Skipped+Blocked to Terminal, and phase and outcome are those of the nodes: success exactly when every node succeeded |
| `Aggregates.CollectionReport` | internal/store/postgres/collections.go:307-378 | The same for collections |
| `Aggregates.NodeReport` | internal/store/postgres/graph_monitoring.go:92-105 | Edge states partition a node's dependency total; all satisfied exactly when the coordinator lets it go |
| `Aggregates.DependenciesMean` | internal/store/postgres/graph_monitoring.go:16-21 | The dependency counts say what the coordinator and the completion loop decide on |
| `Aggregates.PhasesCounted` | internal/store/postgres/graphs.go:280-349 | Total, waiting, active and terminal are the numbers of distinct members in those phases |
| `Aggregates.OutcomesCounted` | internal/store/postgres/collections.go:307-378 | Succeeded, canceled and failed are the numbers of members with success, cancelled, or one of the four failures as outcome |
| `Aggregates.DispositionsCounted` | internal/store/postgres/graphs.go:280-349 | Skipped and blocked are the numbers of nodes given up that way, and failed counts failures that were not given up |
| `Aggregates.DependenciesCounted` | internal/store/postgres/graph_monitoring.go:92-105 | Each dependency count is the number of edges into the node in that state |
| `Fairness.BypassIsBounded` | internal/store/postgres/coordinator.go:125-130 | Among k namespaces with strictly increasing dispatch times, one that holds an eligible job at every dispatch is passed over at most k-1 times, whatever else interleaves |
| `Fairness.DispatchOvertakes` | internal/store/postgres/coordinator.go:306-308 | A dispatch puts its namespace behind every one it passed over, and moves no other |
| `Fairness.EarliestGoesFirst` | internal/store/postgres/coordinator.go:306-308 | Within a namespace the least (created_at, id) goes first |
| `Fairness.ClaimIsTotal` | internal/store/postgres/coordinator.go:262-308 | The claim finds a row exactly when some job is eligible, and only one |
| `Tables.RowsRoundTrip` | internal/store/postgres/coordinator.go:85-124 | A lifecycle value and its four rows determine each other |
| `Tables.CoupledPhases` | internal/store/postgres/executions.go:66-110 | Coupled rows show one of seven phase combinations; every row carries the same outcome, present exactly when terminal |
| `Tables.PhasesAdvance` | internal/store/postgres/executions.go:244-352 | Along every run the rows that each lifecycle value stands for never move backwards in any of the four phases, and terminal rows are fixed |
| `Tables.AcceptRows` | internal/store/postgres/executions.go:51-110 | The guarded updates of an acceptance keep the rows coupled and decide as the state machine does |
| `Tables.ObserveRows` | internal/store/postgres/executions.go:244-352 | The updates for each event type keep the rows coupled and advance the lifecycle by that event |
| `Tables.CancelRows` | internal/store/postgres/collections.go:513-597 | The three cancellation cases keep the rows coupled, and an action is due exactly when an agent holds the work |
| `Tables.OfferRows` | internal/store/postgres/coordinator.go:85-124 | The inserts of an offer keep the rows coupled, and it is made exactly when the job is accepted and wanted |
| `Tables.StaleRows` | internal/store/postgres/reconciliation.go:52-66 | Noting a stale observation raises two revisions and keeps the rows coupled |
| `LifecycleStore.CandidateIsStuck` | internal/store/postgres/graphs.go:456-482 | The candidate query on nullable columns selects exactly the stuck nodes |
| `LifecycleStore.UnblockedIsReady` | internal/store/postgres/coordinator.go:292-303 | The coordinator's NOT EXISTS on nullable columns holds exactly when every edge into the node is satisfied |
| `LifecycleStore.PassesExactly` | internal/store/postgres/coordinator.go:262-305 | The claim query's WHERE clause, evaluated on the rows, selects exactly the eligible jobs |
| `LifecycleStore.InsertJobs` | internal/store/postgres/graphs.go:86-112 | Inserting job rows succeeds exactly for new, distinct ids with the right group and known namespaces, and adds exactly those jobs in their first phase |
| `LifecycleStore.InsertedEdges` | internal/store/postgres/graphs.go:113-125 | The stored edges are the request's edges between the jobs of the named nodes |
| `LifecycleStore.EndedNeedNoVisit` | internal/store/postgres/collections.go:464-502 | Cancelling only the members listed as unfinished is cancelling them all |
| `LifecycleStore.PhaseAdmitsExactly` | internal/store/postgres/executions.go:432-445 | The transition table on the phase column is that of the lifecycle |
| `LifecycleStore.DisposeRows` | internal/store/postgres/graphs.go:486-499 | Ending an unsatisfied node applies its graph's policy and keeps the rows coupled |
| `LifecycleStore.Store.constructor` | internal/domain/job.go:31-34 | A new store is the empty state |
| `LifecycleStore.Store.AcceptAssignment` | internal/store/postgres/executions.go:20-132 | Refines the acceptance step: same new state, same reply or error |
| `LifecycleStore.Store.CheckEvent` | internal/store/postgres/executions.go:174-216 | The ordered checks give the step's verdict, or the event is applicable |
| `LifecycleStore.Store.RecordExecutionEvent` | internal/store/postgres/executions.go:149-387 | Refines the event step, including fail-fast cancellation and propagation |
| `LifecycleStore.Store.CancelSibling` | internal/store/postgres/collections.go:513-597 | Refines the cancellation of one member |
| `LifecycleStore.Store.CancelEach` | internal/store/postgres/collections.go:464-502 | List the unfinished members, then cancel each: refines the cancellation of all |
| `LifecycleStore.Store.ApplyCollectionCompletion` | internal/store/postgres/collections.go:446-511 | Refines collection completion |
| `LifecycleStore.Store.ResolveNext` | internal/store/postgres/graphs.go:454-508 | One round of the loop ends the first stuck node, if there is one |
| `LifecycleStore.Store.ResolveAll` | internal/store/postgres/graphs.go:454-508 | The loop terminates in the propagated state |
| `LifecycleStore.Store.ApplyGraphCompletion` | internal/store/postgres/graphs.go:437-517 | Refines graph completion |
| `LifecycleStore.Store.CancelGraph` | internal/store/postgres/graphs.go:521-622 | Refines the graph cancellation step |
| `LifecycleStore.Store.CancelJob` | internal/store/postgres/executions.go:545-695 | Refines the job cancellation step |
| `LifecycleStore.Store.ReconcileOneAssignment` | internal/store/postgres/coordinator.go:66-164 | Offers the job that the claim returns, refining the offer step; changes nothing exactly when no job is eligible or a generated id is taken |
| `LifecycleStore.Store.ClaimAssignmentCandidate` | internal/store/postgres/coordinator.go:166-322 | Evaluated on the rows, the claim returns the least eligible job with its agent, or nothing exactly when none is eligible |
| `LifecycleStore.Store.SubmitJob` | internal/domain/job.go:31-34 | Refines the submission of a job |
| `LifecycleStore.Store.SubmitCollection` | internal/store/postgres/collections.go:21-136 | Refines the submission of a collection |
| `LifecycleStore.Store.SubmitGraph` | internal/store/postgres/graphs.go:22-145 | Decoding, then storing jobs and edges: refines the submission of a graph |
| `LifecycleStore.Store.MarkStale` | internal/store/postgres/reconciliation.go:15-80 | Refines the stale mark |
| `LifecycleStore.Store.AcknowledgeDesiredAction` | internal/store/postgres/executions.go:508-541 | Refines the acknowledgement of an action |
| `LifecycleStore.Store.CommitLogChunk` | internal/store/postgres/logs.go:18-177 | Refines the log commit within the whole state |
| `LifecycleStore.Store.Execute` | internal/store/postgres/executions.go:20-132 | Every kind of transaction, run on the rows, goes where the state machine goes and keeps its invariant |
| `LifecycleStore.Store.ExecuteAll` | internal/store/postgres/executions.go:20-695 | Along every run of transactions on the stored rows, the four phases of every job stay coupled in one of the seven combinations and never move backwards |
| `GraphRequests.ValidateGraphRequest` | contracts/jobman/v1alpha1/validate.go:193-210 | Accepts exactly the admissible requests, acyclicity included |
| `GraphRequests.AdmittedExactly` | contracts/jobman/v1alpha1/validate.go:193-355 | A request is admitted if and only if it is within the numeric limits, its names and edges are in order, and no sequence of its edges leads back to its start |
| `GraphRequests.ValidateGraphNodes` | contracts/jobman/v1alpha1/validate.go:241-262 | Accepts exactly valid distinct node names and returns their positions |
| `GraphRequests.ValidateGraphEdge` | contracts/jobman/v1alpha1/validate.go:284-307 | Accepts exactly a valid edge whose endpoints pair is new, and returns its endpoints |
| `GraphRequests.ValidateGraphEdges` | contracts/jobman/v1alpha1/validate.go:264-282 | Accepts exactly the valid edge lists, and builds their adjacency lists and indegrees |
| `GraphRequests.GraphContainsCycle` | contracts/jobman/v1alpha1/validate.go:335-355 | Terminates and reports true exactly when the edges have a directed cycle, otherwise with a topological order of all nodes |
| `GraphRequests.KeysAreInjective` | contracts/jobman/v1alpha1/validate.go:294-298 | Joining two names by NUL loses nothing, so duplicate keys are duplicate edges |
| `GraphRequests.SameCycles` | contracts/jobman/v1alpha1/validate.go:264-282 | Cycles among names are cycles among positions and the other way round |
| `GraphRequests.StoreLeavesToDecoder` | internal/store/postgres/graphs.go:147-181 | A request is admissible if and only if the store's own check passes and the number of edges, their outcome lists and acyclicity are right |
| `GraphRequests.StoreAdmitsCycle` | internal/store/postgres/graphs.go:147-181 | The store's own check passes two nodes that wait for each other |
| `LogAssembly.CommitKeeps` | internal/store/postgres/logs.go:89-153 | Every commit keeps a stream consistent; length and last sequence never fall; completion is absorbing |
| `LogAssembly.AcceptedInsertIsStored` | internal/store/postgres/logs.go:124-153 | After an accepted insert the projection never reports a conflict |
| `LogAssembly.RunInvariant` | internal/store/postgres/logs.go:96-123 | In every reachable stream at most one chunk is complete and it has the largest sequence, the row covers a contiguous prefix with its exact length within int64, and is complete exactly when that prefix ends in the complete chunk |
| `LogAssembly.SameChunksSameStream` | internal/store/postgres/logs.go:179-219 | Two runs that stored the same chunks, in the same object store, have the same stream row |
| `LogAssembly.EveryDeliveryAccepted` | internal/store/postgres/logs.go:89-153 | Chunks cut from one byte stream, delivered in any order with any repetition: each new one is accepted, each repeated one is answered as a replay |
| `LogAssembly.AnyOrderCompletes` | internal/store/postgres/logs.go:179-219 | Once all n have arrived the stream is complete, with last sequence n and the exact total length |
| `LogAssembly.MissingChunkKeepsOpen` | internal/store/postgres/logs.go:192-213 | While one is missing the stream is open and reaches no further than the gap |
| `LogRulings.CommitExactly` | internal/store/postgres/logs.go:23-153 | A chunk is stored if and only if it is well-formed and addressed, its numbers fit in 64 bits, its store is the stream's, and the stored chunks with it are pieces of one stream: first at zero, neighbours adjoining, nothing after the complete one |
| `LogRulings.RepeatExactly` | internal/store/postgres/logs.go:89-95 | A repeated sequence is a replay exactly for the stored digest and a conflict exactly for another |
| `LogRulings.StreamShowsPrefix` | internal/store/postgres/logs.go:138-153 | After any run of commits the row shows the longest unbroken run of chunks: last sequence, end, complete and truncated |
| `LogRulings.PaddedIs` | internal/store/postgres/logs.go:55-58 | The key's sequence column is the decimal of the sequence, filled with zeros to eight columns |
| `LogRulings.CommitLogMeans` | internal/store/postgres/logs.go:46-61 | A commit changes at most one stream of one execution, which must be past the offer and belong to the calling agent, by that chunk |
| `LogStore.ContiguousLogProjection` | internal/store/postgres/logs.go:179-219 | The scan computes the projection: the contiguous prefix from 1, its length, and whether it is complete |
| `LogStore.StreamTables.constructor` | internal/store/postgres/logs.go:89-100 | A new stream has no chunk and no row |
| `LogStore.StreamTables.CommitLogChunk` | internal/store/postgres/logs.go:18-177 | Refines the commit: same tables, same reply or error, in every branch |
| `CanonicalNumbers.NormalizePreservesValue` | contracts/jobman/v1alpha1/codec.go:524-571 | On every JSON number text (RFC 8259, section 6) the normal form is a JSON number of exactly the same value, for exponents of any size |
| `CanonicalNumbers.SameTextIffSameValue` | contracts/jobman/v1alpha1/codec.go:524-571 | Two number texts have the same normal form if and only if their values are equal |
| `CanonicalNumbers.NormalizeIsIdempotent` | contracts/jobman/v1alpha1/codec.go:524-571 | Normalizing twice is normalizing once |
| `CanonicalNumbers.CanonicalUnique` | contracts/jobman/v1alpha1/codec.go:556-570 | Two canonical forms of one value are the same |
| `CanonicalNumbers.NormalFormIsScientific` | contracts/jobman/v1alpha1/codec.go:545-570 | Zero is written 0; everything else as an optional minus, one non-zero digit, a fraction without trailing zero or none, and a non-zero exponent without plus or leading zero or none |
| `CanonicalNumbers.SplitText` | contracts/jobman/v1alpha1/codec.go:525-544 | Cutting up the text of a grammatical number recovers its sign, digits and exponent |
| `CanonicalNumbers.NormalizeWritesCanon` | contracts/jobman/v1alpha1/codec.go:545-570 | What is written is the text of the canonical number |
| `CanonicalNumbers.CanonKeepsValue` | contracts/jobman/v1alpha1/codec.go:545-554 | Trimming zeros and adjusting the exponent keeps the exact value |
| `CanonicalNumbers.NormalizeJSONNumber` | contracts/jobman/v1alpha1/codec.go:524-571 | The imperative rewriting computes the normal form of every text, and fails exactly where it does |
| `BerGuard.ValidateExact` | internal/directory/bounds.go:101-125 | Accepts exactly the concatenations of definite-length single-octet-tag elements within depth 16 and 16384 elements |
| `BerGuard.ValidateDirectoryBER` | internal/directory/bounds.go:101-125 | The recursive scan with a shared counter computes that verdict and the count |
| `BerGuard.BerLengthExact` | internal/directory/bounds.go:81-99 | A decoded length is the big-endian value its octets denote, and every denoted length within the bound is decoded |
| `BerGuard.LengthAbovePacketBound` | internal/directory/bounds.go:92-97 | And that excess does occur |
| `BerGuard.OctetBits` | internal/directory/bounds.go:81-117 | The tag and length tests are the masks 0x1f, 0x20 and 0x80 |
| `BerGuard.MessageLimits` | internal/directory/bounds.go:101-125 | A message is one constructed element with tag 0x30, of at most 2 MiB, 16384 elements and 16 levels |
| `BerGuard.DirectoryBERLength` | internal/directory/bounds.go:81-99 | The loop with its early stop computes the length its octets denote and the offset, refusing exactly what exceeds the packet bound by more than 255 |
| `BerGuard.FrameExact` | internal/directory/bounds.go:41-79 | A frame is read exactly when the input starts with a message that fits the packet bound and the budget, and it is that message |
| `BerGuard.ReadDirectoryFrame` | internal/directory/bounds.go:41-79 | The reader computes that frame and what remains |
| `BerGuard.BoundedConnection.constructor` | internal/directory/bounds.go:18-22 | A connection starts with 32 MiB to spend and nothing pending |
| `BerGuard.BoundedConnection.Refill` | internal/directory/bounds.go:28-35 | A refill spends exactly the frame it reads |
| `BerGuard.BoundedConnection.Read` | internal/directory/bounds.go:24-39 | Successive reads deliver a prefix of the validated frames, in order and without loss; their total plus what remains is 32 MiB, and what remains is never negative |
| `DirectorySnapshots.ReadSnapshot` | internal/directory/ldap.go:69-163 | If every change raises a version, an accepted snapshot reports an account present exactly if the directory had it at the first pass and exactly if it had it at the second, unchanged in between; and each group exactly as one search of the window met it: the listed accounts that the directory had at their first pass. A directory that keeps still and answers everything has its snapshot accepted, within the member limit |
| `DirectorySnapshots.SnapshotIsConsistent` | internal/directory/ldap.go:78-158 | How the two account passes and the group pass between them give that |
| `DirectorySnapshots.MembersThroughout` | internal/directory/ldap.go:109-137 | Each group has one instant at which, for all accounts that exist throughout the read, membership is as reported |
| `DirectorySnapshots.MissedBetween` | internal/directory/ldap.go:138-158 | A three-instant history in which an account that exists only between the passes is listed and yet left out by every consistent snapshot |
| `DirectorySnapshots.ReadGroup` | internal/directory/ldap.go:195-241 | An accepted group is its whole member list, unchanged at each search of the read, however the server cut it into ranges; a server that answers everything has exactly its list accepted, within the limit |
| `DirectorySnapshots.ReadRanges` | internal/directory/ldap.go:209-233 | Page after page under one version gives the whole list, and gets through every list that is served in full |
| `DirectorySnapshots.RangeExactly` | internal/directory/ldap.go:258-287 | A carrier is taken exactly if it starts where the read stands, and ends the list or names as many values as it holds |
| `DirectorySnapshots.CarriersExactly` | internal/directory/ldap.go:243-257 | There is a single carrier exactly if one attribute is a range or a plain list with values |
| `DirectorySnapshots.FindExactly` | internal/directory/ldap.go:165-193 | An object is found exactly as the one entry with its id and a name that parses, and missing exactly on an empty answer |
| `DirectorySnapshots.MemberRange` | internal/directory/ldap.go:243-287 | Finds the single attribute that carries members and judges its range |
| `DirectorySnapshots.RangeContinues` | internal/directory/ldap.go:243-287 | An accepted range of a truthful entry continues the list where the last one stopped, without gap or overlap, and the last one reaches its end |
| `DirectorySnapshots.ReadAccounts` | internal/directory/ldap.go:78-108 | Notes each account found, with names and accounts in one-to-one correspondence; accounts that a server gives in full under names of their own are all noted |
| `DirectorySnapshots.ReadAccount` | internal/directory/ldap.go:84-107 | Notes one account as the search met it, and fails on a server that answers everything only for a name noted before |
| `DirectorySnapshots.VerifyAccounts` | internal/directory/ldap.go:138-158 | Confirms that each noted account is still there at its version and name and each missing one still missing, and passes where a server says so |
| `DirectorySnapshots.ReadGroups` | internal/directory/ldap.go:109-137 | Reports each group as resolved from its list at one instant, at most 100000 members in all, and gets through where a server answers everything within that |
| `DirectorySnapshots.ResolveMembers` | internal/directory/ldap.go:122-136 | Maps a member list to the accounts it names, failing exactly on a name that does not parse |
| `DirectorySnapshots.FindIsTrue` | internal/directory/ldap.go:165-193 | What an accepted lookup says is true at its instant |
| `DirectoryMappings.ValidateMapping` | internal/directory/config.go:70-112 | Accepts exactly the valid mappings |
| `DirectoryMappings.ValidateBindings` | internal/directory/config.go:86-92 | Accepts exactly bindings whose groups are distinct and whose namespaces are configured |
| `DirectoryMappings.ValidateIdentities` | internal/directory/config.go:93-110 | Accepts exactly identities in which accounts, principals and sign-in aliases each belong to one identity |
| `DirectoryMappings.FileAliases` | internal/directory/config.go:100-109 | Files an identity's aliases, failing exactly on an invalid one or one that another account holds |
| `Reconciliation.ValidateDirectorySnapshot` | internal/store/postgres/directory.go:296-333 | Accepts exactly the complete snapshots |
| `Reconciliation.BuildDesired` | internal/store/postgres/directory.go:238-264 | Desired grant keys never collide, and the table is exactly the entitlements |
| `Reconciliation.DesiredIsEntitled` | internal/store/postgres/directory.go:251-261 | The desired table holds a role exactly for a present, enabled account in a bound group |
| `Reconciliation.AllCovered` | internal/store/postgres/directory.go:296-333 | A complete snapshot observes every account that a group names |
| `Reconciliation.AppliedExactly` | internal/store/postgres/directory.go:265-281 | After an accepted snapshot the source's active directory grants are exactly the entitlements, and every other grant is untouched |
| `Reconciliation.AuditIsExact` | internal/store/postgres/directory.go:265-281 | The audit gains exactly one row per grant revoked and one per grant made or restored |
| `Reconciliation.ReapplyIsQuiet` | internal/store/postgres/directory.go:265-281 | A later snapshot with the same observations changes no grant and writes no audit row |
| `Reconciliation.ConfigureKeeps` | internal/store/postgres/directory.go:82-168 | Configuration keeps every stored mapping valid and its namespaces managed by its own source |
| `DirectoryStore.TwoStatements` | internal/store/postgres/directory.go:265-281 | Revoking and then upserting is the reconciliation in one |
| `DirectoryStore.NewestWins` | internal/store/postgres/directory.go:197-205 | Under one configuration revision, a snapshot accepted later in a run was verified later |
| `DirectoryStore.SnapshotStands` | internal/store/postgres/directory.go:179-294 | Along every continuation, until a source's next accepted snapshot its active grants are exactly what the last one entitles to |
| `DirectoryStore.Store.constructor` | internal/store/postgres/directory.go:82-90 | A new store has no source, managed namespace, grant or audit row |
| `DirectoryStore.Store.ConfigureDirectory` | internal/store/postgres/directory.go:82-168 | Refines configuration: same new state, accepted in the same cases |
| `DirectoryStore.Store.CheckSnapshot` | internal/store/postgres/directory.go:179-205 | Passes exactly an accepted snapshot: revision, digest, epoch, time window, newer than the last, complete |
| `DirectoryStore.Store.Reconcile` | internal/store/postgres/directory.go:265-281 | The two statements reconcile the grants and add exactly the audit rows |
| `DirectoryStore.Store.ApplyDirectorySnapshot` | internal/store/postgres/directory.go:179-294 | Refines the application of a snapshot; the desired table's primary key never fails |
| `DirectorySync.SyncIsExact` | internal/store/postgres/directory.go:179-294 | End to end: after a consistent read is applied, each binding's grants are exactly the enabled members of its group as one search of the read met it |
| `DirectoryRulings.ConfigureExactly` | internal/store/postgres/directory.go:98-131 | A configuration succeeds if and only if the mapping is valid, takes no namespace over, and repeats the stored revision and digest or is newer and approves each new namespace; only the latter changes anything |
| `DirectoryRulings.ManagedByApproval` | internal/store/postgres/directory.go:113-121 | Along every run a namespace is managed only by the source of a valid mapping that approved it when it was not managed |
| `DirectoryRulings.ManagedForGood` | internal/store/postgres/directory.go:126-131 | And by no other source in any continuation |
| `DirectoryRulings.MappingExactly` | internal/directory/config.go:70-112 | The mappings accepted are exactly those within the numeric bounds in which groups, accounts, principals and sign-in aliases each belong to one entry |
| `DirectoryRulings.AcceptsExactly` | internal/store/postgres/directory.go:179-205 | A snapshot is accepted if and only if it is of the stored revision, digest and epoch, less than 30 seconds old and at most 5 ahead, newer than the last, and observes each configured account and group once and nothing else, within the limits |
| `DirectoryRulings.EntitledExactly` | internal/store/postgres/directory.go:238-261 | A role is due exactly for a mapped group that was observed to list the principal's present and enabled account |
| `DirectoryRulings.GrantsAreDeserved` | internal/store/postgres/directory.go:265-281 | Along every continuation up to the source's next accepted snapshot, a directory grant of its namespaces is active with a role exactly if that role is due |

## Left out

- Caller authorization, idempotency keys, submission quotas, audit rows of the lifecycle and outbox messages: they guard or record the transactions and would add easy members.
- ReconcileAssignments and the stale sweep's own loop: they repeat one transaction up to a limit; each repetition is a step of a run.
- Fairness.BypassIsBounded: takes strictly increasing dispatch times as a hypothesis, because the clock is an input, and does not model rows skipped because another coordinator has locked them.
- validateArtifactPublication and workload documents: an event carries whether its artifacts match.
- resolveCollectionArrayMode and the sorting in SealGraphRequest: short computations on one value.
- Execution history import, listing and paging queries, retention, and what a database restore brings back; only the rise of the recovery epoch is a step.
- Names and lengths of text fields beyond those that a property needs; text is a sequence of characters that stand for bytes.
- Typed decoding of numbers after normalization, and JSON tokenizing: the text of a number arrives delimited.
- GraphRequests.ValidateGraphRequest: version, kind, labels and the workload of each node enter as whether they are valid.
- GraphRequests.StoreLeavesToDecoder: the header fields that the store and the decoder each test enter as one flag.
- DirectorySnapshots.MemberRange: the numbers in a range attribute's name enter already parsed; a name that does not parse is a case of its own.
- DirectorySnapshots.ReadSnapshot: the parsing of distinguished names is a parameter, account eligibility is an attribute, cancellation is a refused search, and the count of ignored members is not reported; ids of a group form a set, which stands for the sorted list without repetition.
- DirectoryMappings.ValidateMapping: walks an identity's aliases as listed; sorting and compacting them first changes neither the set nor the verdict.
- DirectoryStore.Store.ConfigureDirectory: whether the namespaces exist and the conflicts found in the principal, alias and role-binding tables enter as one flag, and the account and alias rows are not modelled.
- Certificates, tokens, delegation, transport security and the HTTP layer.
