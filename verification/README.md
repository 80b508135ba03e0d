# Verified models of the Nirikshan cores

A Dafny 4.11 project that models the stateful and algorithmic cores of Nirikshan, an incident-response
platform, and proves what they keep over every input, run or interleaving. `dafny verify dfyconfig.toml`
checks all of it.

| files | what they model |
|---|---|
| `transport_protocol.dfy`, `transport.dfy` | the Python SDK's background transport: a step system of any number of submitting and flushing threads and one worker, and the threads' own code, whose every atomic action is a step of that system |
| `walks.dfy`, `graph.dfy`, `ranking.dfy` | reachability by walks; the dependency graph with its breadth-first closures and blast radius; root-cause ranking |
| `baseline.dfy` | the EWMA / EWVAR walk of the adaptive baseline, over the reals |
| `alert_rules.dfy`, `alert_history.dfy` | alert-rule evaluation: one pass over the alert table; dwell time, deduplication and resolution over whole histories |
| `lifecycle.dfy` | the incident state machine, its stamps and timeline |
| `correlation.dfy`, `ingestion.dfy` | correlating alerts into incidents; runs of rule passes, guarded ingests and incident operations over the shared tables |
| `handlers.dfy` | the telemetry handler over those tables: all rules evaluated, their alerts ingested; each method a run of the steps above |
| `policy.dfy`, `remediation.dfy` | the policy engine, verification, and the remediation lifecycle |
| `ratelimit.dfy`, `breaker.dfy` | the fixed-window rate limiter and the Redis circuit breaker |
| `query.dfy` | metric bucketing and the log histogram |
| `layout.dfy` | the memoised layered layout of the web service graph |
| `collections.dfy`, `division.dfy`, `numbers.dfy`, `wrappers.dfy` | shared helpers |

The shape is the same throughout. Code that changes state is a class (or a method with its loop) proved equal to
a specification function or relation on values; the run theorems are lemmas about that specification. Clocks,
database answers, network replies, random draws and whether an external call raises are parameters.

Conventions: ids are integers, standing for the UUID strings with their order; database tables are maps or
sequences; a raised exception is a `false` or `None` result; a thread's step is one labelled transition.

Where the code and its own text disagree, the model follows the code, and the difference is a lemma or noted here:

- The SDK's README says that on 429 and 503 the transport waits for Retry-After; the code caps that wait too
  (`RetryAfterHonouredIffWithinCap`).
- `stats["dropped_full"]` is written without a lock and can lose counts (`DropCounterCanLoseOne`), exactly when two
  such updates overlap (`DropsExactIffNoOverlap`); a bounded queue with two submitters allows it
  (`DropsExactIffOneSubmitter`).
- The baseline loop's comment says "in time order"; the query has no ORDER BY, so the sequence is taken as given.
- The correlation docstring says a repeated fingerprint never spawns a second incident. That holds when alerts of a
  fingerprint are ingested in firing order (`RepeatsNeverSplit`), which the telemetry handler does
  (`InStepKeepsApart`); out of order it can fail (`LateIngestCanSplit`), and `NeverSplitsIff` says when.
- The same docstring groups alerts by environment. The fingerprint query does not look at the environment
  (`EnvironmentsNeverMix`, `EnvironmentsCanMix`), and neither does the query for a firing alert
  (`DueBreachHasOwnAlertIff`, `EnvironmentHidesBreach`).
- The comment on the dwell timer says it is anchored to when the signal began to breach. A rule over several services
  has one timer for all of them (`FiringAfterPassIff`, `DwellIsShared`).
- `resolve` writes root cause and summary before a transition that may be refused
  (`RefusedResolveUnchangedIff`).
- The executor's docstring says policy is re-checked before applying; `approve` does that, `execute` does not
  (`ExecuteAppliesIffApprovalStands`, `ObserveAfterApprovalApplies`).
- The mode RECOMMEND is announced as advisory only; approved actions are applied in it (`NeverAppliesIffObserve`).
- An action that failed because its apply raised can be rolled back (`RevertsAnApplyIff`, `FailedApplyIsReverted`).
- Policy would let an incident commander approve a low-risk action that demands ADMIN. This is latent: no registered
  action demands it (`ApproverReachesActionIff`, `RegisteredActionsGuarded`).
- An environment-wide rule remembers one alert and can leave others firing (`QuietPassClearsIff`,
  `EnvironmentRuleStrandsAlert`).
- The blast radius's direct and indirect counts add up to its total only without a self-dependency
  (`ComputeBlastRadius`); the catalogue refuses to record one (src/nirikshan/catalog/service.py, lines 143-144).
- The log histogram's floored step and inclusive end let logs fall off its end (`LostTail`, `NothingFallsOffIff`).

## Model

| member | source | states |
|---|---|---|
| TransportProtocol.StepKeeps | sdk/python/src/nirikshan_sdk/transport.py:89-170 | every atomic action of any thread keeps: pending = announced + queued + in hand; acceptance order = finished batches, batch in hand, queue; exact outcome counters; batch, retry and waiting bounds |
| TransportProtocol.InvAlways | sdk/python/src/nirikshan_sdk/transport.py:89-170 | all of this holds after every interleaving of any number of threads |
| TransportProtocol.ExactlyOneFate | sdk/python/src/nirikshan_sdk/transport.py:122-170 | in every reachable state each accepted event is, with multiplicity, in exactly one of sent, rejected, failed, batch in hand, queue, and the counters add up to the accepted events |
| TransportProtocol.HistoryGrows | sdk/python/src/nirikshan_sdk/transport.py:122-170 | no step un-accepts an event or changes the outcome of a finished batch |
| TransportProtocol.PendingZeroIffDrained | sdk/python/src/nirikshan_sdk/transport.py:100-109 | the condition flush waits for is true exactly when nobody is inside submit, the queue is empty and nothing is in flight |
| TransportProtocol.FlushResolvesEarlierSubmits | sdk/python/src/nirikshan_sdk/transport.py:100-109 | when a flush returns True, every event accepted at any earlier point of the run lies in a finished batch |
| TransportProtocol.StrandedForever | sdk/python/src/nirikshan_sdk/transport.py:111-123 | events queued when the worker has exited stay queued, and no flush returns True after that |
| TransportProtocol.WorkerNeverStuck | sdk/python/src/nirikshan_sdk/transport.py:122-140 | until it exits the worker always has a step to take |
| TransportProtocol.WorkerDrains | sdk/python/src/nirikshan_sdk/transport.py:100-140 | once nothing more is accepted, and without stop: in any interleaving with flushers and refused submitters everything is resolved after a bounded number of worker steps whatever the server answers, in at most queue length + 1 delivering iterations |
| TransportProtocol.FlushEventuallyTrue | sdk/python/src/nirikshan_sdk/transport.py:89-140 | a waiting flush can then return True, however many submitters were inside submit at the start |
| TransportProtocol.StopEndsWorker | sdk/python/src/nirikshan_sdk/transport.py:111-170 | once stop is set, in any interleaving, the worker exits within a bounded number of its steps and takes at most one more batch |
| TransportProtocol.DropsExactIffNoOverlap | sdk/python/src/nirikshan_sdk/transport.py:95-98 | after any run, when nobody is inside the unlocked update, dropped_full equals the refused submits exactly if no two of the updates overlapped |
| TransportProtocol.DropsExactWithOneSubmitter | sdk/python/src/nirikshan_sdk/transport.py:89-98 | a client that submits from one thread only has an exact count, whatever else runs |
| TransportProtocol.DropsExactIffOneSubmitter | sdk/python/src/nirikshan_sdk/transport.py:89-98 | every run whose submitters lie in a set of threads ends with an exact count, precisely for an unbounded queue or at most one thread |
| TransportProtocol.DropCounterCanLoseOne | sdk/python/src/nirikshan_sdk/transport.py:95-98 | for any bounded queue and any two threads, a run of two refused submits that ends with dropped_full = 1 |
| TransportProtocol.RetryAfterHonouredIffWithinCap | sdk/python/src/nirikshan_sdk/transport.py:157-161 | on 429 and 503 a Retry-After is waited out in full exactly when it is at most the backoff cap, and up to the cap otherwise |
| TransportProtocol.BackoffHalfToFull | sdk/python/src/nirikshan_sdk/transport.py:158-161 | every other wait, a Retry-After on another status included, is between half and all of the capped exponential, and both ends are drawn |
| TransportProtocol.CeilingDoubles | sdk/python/src/nirikshan_sdk/transport.py:159 | the capped exponential starts at the base and doubles with every attempt until it reaches the cap |
| Transport.Transport.Submit | sdk/python/src/nirikshan_sdk/transport.py:89-98 | queues the event exactly when there is room, otherwise leaves everything but the drop counters as it was; every action on the way is a protocol step |
| Transport.Transport.SendUntilConclusive | sdk/python/src/nirikshan_sdk/transport.py:144-170 | sends until the first conclusive reply, which alone decides the outcome; counts the batch once and every wait as a retry |
| Transport.Transport.Deliver | sdk/python/src/nirikshan_sdk/transport.py:142-170 | in status numbers: a batch is sent exactly if its last reply is in 200..299; 0, 408, 429, 500, 502, 503 and 504 are retried while attempts are left and nobody stops, else the batch fails; any other last reply rejects it; it is counted once |
| Transport.Transport.TakeBatch | sdk/python/src/nirikshan_sdk/transport.py:124-133 | takes exactly the longest permitted prefix of the queue |
| Transport.Transport.Iterate | sdk/python/src/nirikshan_sdk/transport.py:123-140 | one worker iteration: removes that prefix, finishes it with its outcome and lowers pending by its length |
| Transport.Transport.Flush | sdk/python/src/nirikshan_sdk/transport.py:100-109 | returns True exactly when nothing is pending, then everything accepted is finished in order; given as many worker iterations as queued events it does return True |
| DependencyGraph.Bfs | src/nirikshan/catalog/graph.py:74-85 | although nodes are marked on pop: every reachable node but the start, once each, nearest first |
| DependencyGraph.VisitKeeps | src/nirikshan/catalog/graph.py:78-84 | visiting a node keeps the search invariant: tags are walk lengths, sorted, and no edge is forgotten |
| DependencyGraph.SkipKeeps | src/nirikshan/catalog/graph.py:80-81 | skipping a duplicate or the start loses nothing |
| DependencyGraph.LoadGraph | src/nirikshan/catalog/graph.py:88-106 | depends_on holds exactly the edges with both ends in the environment and dependents is its transpose |
| DependencyGraph.ClosuresDual | src/nirikshan/catalog/graph.py:41-47 | y is in x's downstream closure exactly when x is in y's dependents closure |
| DependencyGraph.ComputeBlastRadius | src/nirikshan/catalog/graph.py:49-71 | direct and indirect dependents are disjoint and cover the closure; their sizes add up to the total exactly when the service has no edge to itself; the user-facing names are those of tier-1 members |
| RootRanking.RankProbableRoot | src/nirikshan/catalog/graph.py:109-126 | the impacted services, each once; an earlier one has at least as large a twice-covers less dependencies, both counted as sets of impacted services |
| RootRanking.OneCoverWeighsTwo | src/nirikshan/catalog/graph.py:120-124 | one more covered service outweighs another ranking exactly as long as it comes with at most two more dependencies |
| RootRanking.DependencyScoresHigher | src/nirikshan/catalog/graph.py:117-124 | on any graph, a one-way transitive dependency scores strictly higher than its dependant |
| RootRanking.MutualScoresEqual | src/nirikshan/catalog/graph.py:117-124 | mutually dependent services score the same |
| RootRanking.DependenciesRankFirst | src/nirikshan/catalog/graph.py:109-126 | one-way dependencies rank before their dependants, and the first suspect depends on another impacted service only mutually |
| Baseline.WeightsAreAverage | src/nirikshan/detection/baseline.py:83-89 | the exponential weights are positive and sum to one |
| Baseline.MixAppend | src/nirikshan/detection/baseline.py:86-88 | the closed-form weighted sum obeys the loop's recurrence |
| Baseline.WalkStep | src/nirikshan/detection/baseline.py:86-89 | one iteration turns the weighted mean and variance of a series into those of the longer one |
| Baseline.RecomputeBaseline | src/nirikshan/detection/baseline.py:76-99 | the loop computes exactly the weighted mean and the weighted variance about it; nothing below eight samples |
| Baseline.BaselineBounds | src/nirikshan/detection/baseline.py:83-89 | min <= ewma <= max and 0 <= ewvar <= (max - ewma)(ewma - min) <= (max - min)^2 / 4 |
| Baseline.StepChangeAbsorbed | src/nirikshan/detection/baseline.py:9-11 | after a step change k samples leave the fraction 0.85^k of the old level |
| AlertRules.BreachSince | src/nirikshan/detection/alerts.py:179-207 | the rows before the first that does not breach are the latest run: the time of the oldest of them, at most the time of every other when rows come latest first; now if there is none; one window ago for other signals |
| AlertRules.AlertTable.EvaluateRule | src/nirikshan/detection/alerts.py:210-245 | rule columns, alert table and returned alert are those of the pass specification; an enabled rule is stamped, a disabled one leaves everything alone |
| AlertRules.AlertTable.FireOrRefreshAlert | src/nirikshan/detection/alerts.py:117-163 | the alert returned is firing with the fingerprint and the observed value; the table has grown exactly if none of the fingerprint was firing, then by an alert dated now that the rule remembers; no other alert is touched |
| AlertRules.NeverTwoFiring | src/nirikshan/detection/alerts.py:117-127 | over all runs of passes of any rules at most one alert per fingerprint is firing |
| AlertHistory.FiringAfterPassIff | src/nirikshan/detection/alerts.py:166-245 | any rule, over any services and shared fingerprints, after any history: breaching_since is the earliest start inferred since the last pass without a breach; after a breaching pass a fingerprint fires exactly if it did before or one of its readings breached with the streak up to it old enough; after a quiet pass exactly if it did by an alert other than the one remembered |
| AlertHistory.ReadingFiresIff | src/nirikshan/detection/alerts.py:225-240 | so with distinct fingerprints each service is judged by the starts of all services up to and including itself |
| AlertHistory.LongRunFires | src/nirikshan/detection/alerts.py:193-240 | after any history, a breaching signal whose latest unbroken run of rows reaches back for_seconds has a firing alert after the pass |
| AlertHistory.DwellShared | src/nirikshan/detection/alerts.py:234-240 | the second of two services that start breaching fires exactly if either of them has dwelt |
| AlertHistory.DwellIsShared | src/nirikshan/detection/alerts.py:234-240 | with ten minutes of dwell, a service breaching only now fires at once after one breaching for long, and would not alone |
| AlertHistory.FiringIffDwelt | src/nirikshan/detection/alerts.py:210-245 | the case of one service with a fingerprint of its own: after each pass the alert fires exactly when the earliest start inferred over the current unbroken breaching streak is at least for_seconds old, and breaching_since is that start |
| AlertHistory.DueBreachHasOwnAlertIff | src/nirikshan/detection/alerts.py:117-163 | a due breach has a firing alert of its own environment exactly if no alert of another environment was firing with its fingerprint |
| AlertHistory.QuietPassClearsIff | src/nirikshan/detection/alerts.py:166-241 | for a rule over any services, after any history: a pass without a breach settles exactly the newest alert the rule created since the last such pass, so it leaves nothing of its own firing exactly if no other of its alerts was still firing |
| AlertHistory.LeftFiringForGood | src/nirikshan/detection/alerts.py:166-241 | an alert left firing so is never settled by a later pass of the rule |
| AlertHistory.EnvironmentRuleStrandsAlert | src/nirikshan/detection/alerts.py:226-241 | two services breach and recover, and one alert stays firing |
| Lifecycle.Incident.Transition | src/nirikshan/incidents/engine.py:223-264 | moves exactly along the table, entry by entry; appends the event; stamps the time and, where there is one, the actor of first entries only; a refusal changes nothing |
| Lifecycle.Incident.Resolve | src/nirikshan/incidents/engine.py:281-299 | refused exactly when CLOSED; a given cause, and the summary with the resolution appended and the whole trimmed, are written either way |
| Lifecycle.RunsAreSound | src/nirikshan/incidents/engine.py:241-258 | over every run of transition requests the timeline replays to the status, chains from DETECTED inside the table, and each stamp is the time of the first entry |
| Lifecycle.HistoryIsFinal | src/nirikshan/domain/enums.py:81-107 | events are never rewritten, stamps never change, CLOSED is absorbing |
| Lifecycle.NeverReopened | src/nirikshan/incidents/engine.py:267-307 | no operation of the engine reopens an incident, and each is at most one transition request |
| Lifecycle.RefusedResolveUnchangedIff | src/nirikshan/incidents/engine.py:284-290 | the texts survive exactly when no resolution is given and the cause is empty or unchanged |
| Correlation.RelatedServices | src/nirikshan/detection/correlation.py:38-44 | the service and those a row of the catalogue links it to in either direction, inside its environment |
| Correlation.FindIncidentForAlert | src/nirikshan/detection/correlation.py:47-85 | the open incident of the latest alert with the fingerprint, else the latest open one on a related service detected in the last 15 minutes, else none |
| Ingestion.StepKeepsBooks | src/nirikshan/incidents/engine.py:111-217 | under the handlers' guard alert_count = length of the reference list = number of linked alerts, and the sorted list holds exactly their references |
| Ingestion.RunsOnlyWorsen | src/nirikshan/incidents/engine.py:177-206 | over any run severity never de-escalates, no link moves and no incident reopens |
| Ingestion.StepKeepsSeparation | src/nirikshan/detection/correlation.py:68-85 | each step keeps: when an incident was opened, every related one still open had been detected before the window |
| Ingestion.OpenIncidentsApart | src/nirikshan/detection/correlation.py:28-85 | two open incidents of one environment on the same or linked services were detected more than 15 minutes, less the ingestion lag, apart |
| Ingestion.RepeatsNeverSplit | src/nirikshan/detection/correlation.py:52-66 | ingested in firing order, the alerts of a fingerprint are never on two open incidents |
| Ingestion.IngestKeepsOneIff | src/nirikshan/detection/correlation.py:52-85 | one ingest keeps each fingerprint on one open incident exactly if every open incident that carries its fingerprint is the one decided |
| Ingestion.NeverSplitsIff | src/nirikshan/detection/correlation.py:52-85 | what can be read off the tables before: whichever admissible decision is taken no repeat splits, exactly if the latest alert of the fingerprint is on an open incident or every open one carrying it is the sole latest related candidate in the window |
| Ingestion.LateIngestCanSplit | src/nirikshan/detection/correlation.py:53-66 | a run from the empty tables, ingesting out of firing order, that ends with a fingerprint on two open incidents |
| Ingestion.IngestKeepsEnvironmentIff | src/nirikshan/detection/correlation.py:53-66 | one ingest keeps alerts on incidents of their environment exactly if the open incident of the latest alert of the fingerprint, if any, has its environment |
| Ingestion.EnvironmentsNeverMix | src/nirikshan/detection/correlation.py:3-13 | over all runs in which no two environments share a fingerprint every alert is on an incident of its environment |
| Ingestion.EnvironmentsCanMix | src/nirikshan/detection/alerts.py:117-163 | a run in which services of two environments share a fingerprint and an alert joins the other environment's incident |
| Ingestion.EnvironmentHidesBreach | src/nirikshan/detection/alerts.py:117-127 | a run in which a due breach gets no alert because one of another environment with its fingerprint is firing |
| Ingestion.ReattachKeepsBooksIff | src/nirikshan/workers/handlers.py:39-52 | without the guard the books survive exactly when the alert stays on its incident |
| Handlers.Pipeline.IngestAlert | src/nirikshan/incidents/engine.py:111-174 | takes one admissible decision and changes the tables exactly as it says; an incident it opens has the alert's environment, service, time and reference, the assessed severity and count 1; an unknown service changes nothing |
| Handlers.Pipeline.AttachAlert | src/nirikshan/incidents/engine.py:177-206 | links the alert; the list gains its reference and stays sorted, the count goes up by one exactly if the reference is new, severity moves only then and only to the worse; nothing else changes |
| Handlers.Pipeline.EvaluateAllRules | src/nirikshan/detection/alerts.py:248-260 | the tables and the returned alerts are those of the passes of the enabled rules one after the other, each stamped now; inside a tick no alert created by one pass is settled by another |
| Handlers.Pipeline.OnTelemetryReceived | src/nirikshan/workers/handlers.py:31-46 | a run of the model's steps: every rule is evaluated, and after that only the returned alerts and those still firing are linked; no firing alert is left without an incident unless a service is unknown; at a later time than everything before, it ingests without lag, in firing order, and leaves no alert unlinked |
| Handlers.Pipeline.Operate | src/nirikshan/incidents/engine.py:223-307 | an operation changes its incident's life only; resolving one that is not CLOSED settles exactly its firing alerts, now, nothing else settles any; nothing is relinked and the pipeline stays in step |
| Handlers.InStepKeepsApart | src/nirikshan/workers/handlers.py:31-46 | a pipeline driven so, with any operations between: related open incidents are detected more than 15 minutes apart, no fingerprint is on two open incidents, at most one alert per fingerprint fires |
| Policy.Evaluate | src/nirikshan/remediation/policy.py:48-138 | blocks exactly an invalid action, an unknown service, an incident that is over and OBSERVE mode; allows unapproved exactly a reversible low-risk action in AUTONOMOUS mode at a confidence of at least 0.8; the least approver role |
| Policy.ApproverReachesActionIff | src/nirikshan/remediation/policy.py:103-123 | the required approver reaches the action's own role in every situation exactly for actions that do not demand ADMIN |
| Policy.RegisteredActionsGuarded | src/nirikshan/remediation/registry.py:199-267 | so it does for every registered action, and only the reversible ones can run unapproved |
| Policy.JuniorApprovalIff | src/nirikshan/remediation/policy.py:103-123 | below incident commander one may approve only what meets the autonomous bar |
| Policy.RunVerification | src/nirikshan/remediation/verification.py:49-92 | the number of checks that pass, and success exactly for a non-empty list that passes entirely |
| Policy.RunCheck | src/nirikshan/remediation/verification.py:16-89 | passes exactly when there is a measurement that meets the target and, where the baseline is compared, does not exceed what the baseline allows |
| Remediation.Action.Approve | src/nirikshan/remediation/executor.py:57-104 | accepted exactly when proposed, awaiting approval or approved, not barred and the role suffices; then APPROVED, with the approval on record |
| Remediation.Action.Reject | src/nirikshan/remediation/executor.py:107-128 | accepted exactly when proposed, awaiting approval or approved; then REJECTED, with the refusal on record |
| Remediation.Action.Execute | src/nirikshan/remediation/executor.py:131-200 | accepted exactly when APPROVED and resolvable; records one numbered apply, ends VERIFYING or FAILED as it worked, and moves an incident under investigation or acknowledged to MITIGATING |
| Remediation.Action.Verify | src/nirikshan/remediation/executor.py:203-233 | the last apply alone gets the report; SUCCEEDED exactly if there are checks and all pass, else FAILED |
| Remediation.Action.Rollback | src/nirikshan/remediation/executor.py:236-289 | accepted exactly for a reversible, resolvable action that is SUCCEEDED, FAILED or VERIFYING; adds exactly one revert, worked or not, to executions otherwise kept; the status becomes ROLLED_BACK exactly if it worked and else stays; the record stays orderly |
| Remediation.PerformOrderly | src/nirikshan/remediation/executor.py:57-289 | each operation keeps the execution record orderly: numbered, one apply first, at most the last revert successful |
| Remediation.ApplyIsSingleAndApproved | src/nirikshan/remediation/executor.py:57-200 | over all runs at most one apply, always after a recorded approval that policy did not block by a sufficient role |
| Remediation.ObserveNeverApplies | src/nirikshan/remediation/policy.py:97-98 | approvals sought in OBSERVE mode never lead to an execution |
| Remediation.ExecuteAppliesIffApprovalStands | src/nirikshan/remediation/executor.py:131-151 | after any run and in any mode a resolvable action is applied exactly when an accepted approval stands, nothing but further approvals having been accepted since |
| Remediation.ObserveAfterApprovalApplies | src/nirikshan/remediation/executor.py:131-136 | an action approved in any other mode is applied although the mode is now OBSERVE |
| Remediation.NeverAppliesIffObserve | src/nirikshan/remediation/policy.py:95-112 | OBSERVE is the only mode in which, kept throughout, no run ever applies anything |
| Remediation.RevertsAnApplyIff | src/nirikshan/remediation/executor.py:131-289 | after any run an accepted rollback follows an apply that worked exactly if the action is not FAILED or a verification report is on record |
| Remediation.FailedApplyIsReverted | src/nirikshan/remediation/executor.py:131-289 | a run in which an apply that raised is rolled back with success |
| Remediation.FinalStatuses | src/nirikshan/remediation/executor.py:31-35 | REJECTED and ROLLED_BACK are final over all runs |
| Remediation.RejectionIsFinal | src/nirikshan/remediation/executor.py:31-128 | over all runs: once a rejection was accepted nothing is accepted any more, the status stays REJECTED and the executions are those of before |
| Remediation.SuccessWasVerified | src/nirikshan/remediation/executor.py:203-223 | SUCCEEDED is reached only through a verification, from VERIFYING, of a non-empty list that passed entirely |
| RateLimiting.RateLimit.Check | src/nirikshan/security/ratelimit.py:26-44 | allowed exactly while fewer than count checks of the identity were made in the bucket, although counters expire; the rest is remaining; a denial's retry time lands on the next bucket within 1 to window seconds; fails open |
| RateLimiting.CheckAgrees | src/nirikshan/security/ratelimit.py:30-36 | the expiring counter equals the ideal per-bucket count and outlives its bucket |
| RateLimiting.BucketAllowance | src/nirikshan/security/ratelimit.py:41-44 | exactly the first count checks of a bucket are allowed |
| RateLimiting.AllowanceBounds | src/nirikshan/security/ratelimit.py:26-44 | at most count allowed per bucket and 2 * count in any interval of one window |
| RateLimiting.DoubleIsReached | src/nirikshan/security/ratelimit.py:28-44 | the bound 2 * count is reached |
| CircuitBreaker.Breaker.GuardedCall | src/nirikshan/core/redis_bus.py:92-106 | calls the client exactly when the breaker is closed; a failed call closes it off for 15 seconds from its end, a successful one resets it |
| CircuitBreaker.Breaker.IsHealthy | src/nirikshan/core/redis_bus.py:77-86 | the second breaker check cannot fail, so the breaker trips only on a failed call |
| CircuitBreaker.FailedCallsAreSpread | src/nirikshan/core/redis_bus.py:44-57 | n failed calls span at least 15 * (n - 1) seconds, whatever succeeds in between |
| Query.MetricSeries | src/nirikshan/telemetry/query.py:163-214 | one point per non-empty bucket at its start, in strictly increasing time, and a point for every row; a max point is the greatest member, a min point the least, avg times size and sum are the total, count the size; a p95 point is a member with k + 1 members at or below it and n - k at or above, k the rank nearest to 0.95 (n - 1) |
| Query.IndexMeans | src/nirikshan/telemetry/query.py:175-177 | the bucket of an instant is the one whose step-long interval holds it |
| Query.BucketsPartitionRows | src/nirikshan/telemetry/query.py:174-182 | the buckets laid end to end are the row values, in order, each once |
| Query.SeriesConserves | src/nirikshan/telemetry/query.py:197-209 | count points add up to the rows, sum points to their total |
| Query.AggregateWithin | src/nirikshan/telemetry/query.py:197-214 | avg, min, max and p95 lie within the bucket's range |
| Query.LogHistogram | src/nirikshan/telemetry/query.py:105-129 | each shown bucket counts, for every level, exactly the logs of that level in its step-long interval |
| Query.LostTail | src/nirikshan/telemetry/query.py:113-129 | with no more buckets than seconds, exactly the logs of the last seconds mod buckets seconds, and of the closing instant, are lost |
| Query.NothingFallsOffIff | src/nirikshan/telemetry/query.py:113-129 | so every log of the range is shown exactly if there are more buckets than seconds, which the endpoint's limits rule out |
| Layout.Layering.Depth | apps/web/components/ServiceGraph.tsx:32-41 | terminates on any graph; a settled depth is the length of a walk, of the longest one wherever no cycle can be reached from the node, and falls along every edge off the cycles |
| Layout.Settle | apps/web/components/ServiceGraph.tsx:36-40 | memoising a node keeps all of that |
| Layout.LayoutGraph | apps/web/components/ServiceGraph.tsx:28-63 | distinct nodes get distinct places; columns are depths counted from the right, the leftmost is taken; with one node per id the row of a node is the number of its column's nodes up to it by tier, then id; edges off the cycles run strictly left to right |
| Layout.AllEdgesRightIffAcyclic | apps/web/components/ServiceGraph.tsx:49-59 | when all endpoints are listed, all edges run strictly left to right exactly when there is no cycle |

## Left out

- FastAPI routers, serializers, schemas, ORM models, migrations, gRPC, authentication, audit and RBAC: plumbing.
- LLM providers, planner, reasoner, prompts and costs; demo generator and scenarios; embeddings, retention, health rollups.
- Anomaly detection: numpy percentiles and scikit-learn. The baseline's plain mean, standard deviation and percentiles too.
- Severity scoring: the severity assessed for an ingest is an arbitrary rank.
- Policy.Evaluate: which findings besides the blocking ones are listed, and their texts.
- Registry apply and revert bodies: they succeed or raise.
- Transport.Transport.Flush: each wait lasts until the worker has run one more iteration; arbitrary interleavings are the protocol's lemmas.
- Transport.Transport.Deliver: JSON encoding succeeds or fails as a whole, seconds are reals, and a float overflow of the backoff at more than a thousand retries is not modelled.
- Transport.Transport.Submit: runs without interference; the race on dropped_full is modelled in the step system.
- HTTP, urllib and header parsing: a reply is a status with an optional non-negative Retry-After.
- DependencyGraph.ComputeBlastRadius: returns ids where the source returns the names looked up for them, and a set where it sorts names.
- RootRanking.RankProbableRoot: scores are doubled to stay integers; the order among equal scores follows set iteration and is arbitrary.
- Baseline.RecomputeBaseline: floating-point rounding, and writing the row.
- AlertRules.AlertTable.EvaluateRule: how a signal is evaluated from telemetry; emitted events, titles and context texts.
- AlertHistory.FiringAfterPassIff: the rule's configuration stays the same over the history.
- Handlers.Pipeline.IngestAlert: titles, summaries, blast radius, affected services and the incident's reference, which is taken as fresh.
- Handlers.Pipeline.OnTelemetryReceived: the anomaly scan, an evaluation that raises and is skipped, and editing or deleting rules; all clock readings of one call are one.
- Lifecycle.Incident.Resolve: settling the incident's alerts is in Handlers.Pipeline.Operate; archiving on close, and blanks other than space, tab, newline and carriage return in trimming, are not modelled.
- RateLimiting.RateLimit.Check: Redis shares the caller's clock, and a pipeline that fails has no effect.
- CircuitBreaker.Breaker.GuardedCall: several threads, and the test hook that injects a client.
- Query.MetricSeries: the p95 rank is rounded over the reals; the float product can differ at ties.
- Layout.LayoutGraph: width and height, and columns are visited by depth rather than in insertion order, which gives the same positions.
