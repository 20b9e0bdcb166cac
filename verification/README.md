# A model of the Memgraph operator, with proofs

The operator keeps one Memgraph MAIN and its REPLICAs in step on Kubernetes. This project models its
four stateful parts in Dafny and proves what they promise, for all inputs, all failure patterns and
whole runs:

- reading SHOW REPLICAS (`TableParser`, `DataLiteral`, `Json`, `DataInfo`) against a printer for the
  documented formats (`TablePrinter`, `MapLiteral`, `Documented`) and, for any text, against the grammar
  of what is accepted (`JsonGrammar`, `DataReading`);
- the replica health check: the classifier (`Classifier`), its table of timers (`HealthCheck`), the
  reading of both as functions of the history (`HealthHistory`, `HealthGauges`), in plain terms
  (`PlainHealth`), the other health view (`HealthViews`) and the gauges (`Metrics`);
- the replication protocol (`Pods`, `Replication`) under failing calls: distance, safety and
  explanations (`ReplicationSafety`), traces (`ReplicationTrace`), convergence (`ReplicationRuns`);
- the reconcile pass (`Election`, `ClusterStatus`, `Snapshot`, `CronJobs`, `Api`, `Reconciler`) and its
  runs (`ReconcileRuns`, `RunHistories`, `PhaseEvents`, `Lifecycle`, `Readiness`, `SteadyState`), with a small
  cluster for counterexamples (`Samples`).

`GoStrings` holds the few operations of Go's `strings` and `strconv` packages that the code relies on.

Code that changes state step by step is modelled by classes and methods whose contracts tie the new
state to functions of the old one; the theorems are lemmas about those functions. Go maps are iterated
in an arbitrary order. Calls to Memgraph and writes to the API server take effect, fail, or take effect
although they are reported as failed; what a pass reads from outside is a parameter of it.

## Findings

- The classifier's comment says that it normalises a status as the summary does
  (internal/controller/replica_classifier.go:119-120). It also trims white space (line 122), which the
  summary does not (internal/memgraph/client.go:546), so the two differ exactly as
  `HealthViews.StatusesAgreeExactly` says, for instance as in `HealthViews.StatusesCanDiffer`.
- The comment on the class for a closed data channel has it begin when the grace period is reached
  (internal/controller/replica_classifier.go:20); the code waits until the period has been exceeded
  (line 73). The model follows the code.
- A socket address whose host contains a colon is cut at the wrong one
  (internal/memgraph/client.go:477-482): `TablePrinter.HostAndPortInverts`, and
  `TablePrinter.BracketedAddressMisread` for an IPv6 address.
- Phase events do not always account for the phase: a status write that takes effect although it is
  reported as failed loses its event (internal/controller/memgraphcluster_controller.go:127-131, 267-269).
  `PhaseEvents.PhaseEventsCountPhase` gives the exact condition and `PhaseEvents.CountCanFail` a run.
- With a single listed pod, replication is never looked at
  (internal/controller/memgraphcluster_controller.go:223), so a lone pod in the role REPLICA is served
  but never becomes MAIN: `SteadyState.CompletePassSteadies` and `SteadyState.LoneReplicaStays`.
- With a single desired instance, Ready does not depend on replication having been configured
  (internal/controller/memgraphcluster_controller.go:575-577):
  `Readiness.SingleInstanceReadyExactly` and `Readiness.ReadyWithoutMain`.
- Pruned replicas keep their stateful gauge series (internal/controller/replication.go:75-85) unless
  the operator itself dropped them (line 270): `HealthGauges.SeriesOutliveTimers`,
  `HealthGauges.SeriesLeftBehind` and `HealthGauges.DroppedLosesSeries`.
- Edits of a CronJob's uncompared fields are not propagated (internal/controller/snapshot.go:399-417):
  `Snapshot.WholeSpecWrittenExactly` and `Snapshot.EnvironmentDriftIgnored`.

## Assumptions

- The clock is never Go's zero time. (That it does not run backwards is not needed: spans are stated
  as differences.)
- A SHOW REPLICAS result lists a name at most once; pod names in a list are distinct and not empty;
  pod names contain no underscore (section 2.1 of RFC 1123) and namespaces no slash. Each is stated
  where it is needed.
- Reads of the API server return what was last stored; a conflicting write counts as a rejected one.
- Memgraph's replication commands have their plain effects: a role is set, a name is added, a name is
  removed; registering a name twice is an error and dropping an unknown one is not. A restarted
  instance has lost its registrations and comes up in an arbitrary role.
- The API server may fill in any field of a CronJob that the operator does not compare, and no other.

## Model

| member | source | states |
|---|---|---|
| GoStrings.SplitJoin | internal/memgraph/client.go:434 | cutting the output into lines and a line into cells undoes joining them when no part contains the separator |
| GoStrings.JoinSplit | internal/memgraph/client.go:434 | joining the parts restores any text, and no part contains the separator, which together with the row above determines the parts |
| GoStrings.TrimPadded | internal/memgraph/client.go:437-454 | a text whose ends are no cut characters is exactly what trimming leaves of it under any padding |
| GoStrings.TrimExactly | internal/memgraph/client.go:437-454 | of any text, trimming takes off cut characters only, until there is none left at either end |
| GoStrings.AtoiExactly | internal/memgraph/client.go:460 | a text is read as a number if and only if it is an optional sign and at least one digit, and nothing else, of a value that fits into 64 bits, and the number read is the sum of its digits by their places |
| TableParser.ReadColumns | internal/memgraph/client.go:437-450 | the cells of a line, trimmed, as specified by `Columns`: borders, lines not starting with a bar and lines of fewer than seven parts have none |
| TableParser.ReadReplica | internal/memgraph/client.go:454-485 | one row in the legacy format (numeric third column) or the current one, including the host and port, the data map and its summary; header rows give nothing |
| TableParser.ParseShowReplicasOutput | internal/memgraph/client.go:433-489 | the replicas of all lines, in order |
| TablePrinter.ColumnsOfTableLine | internal/memgraph/client.go:437-450 | a printed table line has exactly its cells as columns, whatever the padding and margins |
| TablePrinter.HostAndPortInverts | internal/memgraph/client.go:477-482 | host and port come back from an address if and only if the host contains no colon |
| TablePrinter.BracketedAddressMisread | internal/memgraph/client.go:477-482 | the address [fd00::1]:10000 is read as host [fd00 and port 0 |
| TablePrinter.DataFitsCell | internal/memgraph/client.go:422-431 | every proper data map, however long, can stand in a cell: its literal contains no bar or newline and has no white space or quotes at its ends |
| TablePrinter.RowInverts | internal/memgraph/client.go:454-485 | the columns of a printed row, in either format, are read as the replica it shows if and only if its name is not taken for a header, its mode is no 64-bit numeral, and its host contains no colon |
| TablePrinter.KnownModesRead | internal/memgraph/client.go:460-485 | in particular every row of the current format in mode sync, async or strict_sync with a proper name and a host without colons is read back |
| Documented.DocumentedRowRead | internal/memgraph/client.go:422-431 | the row of the format's documentation is read, field by field, as replica r0 on port 10000 of host, with its data map and summary |
| TablePrinter.LineInverts | internal/memgraph/client.go:436-486 | each line, of any kind (rows with further cells and lines of too few cells among them), contributes at most what it shows, and exactly that if and only if it is not a row that fails that condition |
| TablePrinter.ParseInvertsPrint | internal/memgraph/client.go:433-489 | parsing any printed output (rows of both formats with any number of further cells, short lines, headers, borders, empty lines, any padding) returns the printed replicas in order, each with its whole per-database map, if and only if every row meets that condition |
| DataLiteral.QuoteBareKey | internal/memgraph/client.go:493 | a bare key at the start of the text, with any blanks around it, is put in quotes and the rest is treated independently |
| DataLiteral.MatchExactly | internal/memgraph/client.go:493-505 | the pattern matches exactly a delimiter, blanks, a letter or underscore with letters, digits, underscores and hyphens, blanks and a colon, said character by character, and quoting resumes after the colon |
| DataLiteral.KeptExactly | internal/memgraph/client.go:505 | where no such match starts a character is kept, which together with the row above determines the text |
| DataLiteral.QuoteWritten | internal/memgraph/client.go:493-505 | on a text whose keys are marked, quoting touches exactly the keys that are not quoted yet |
| DataLiteral.QuotingIdempotent | internal/memgraph/client.go:493-505 | quoting twice is quoting once, for any text whatever |
| JsonGrammar.ParseTextExactly | internal/memgraph/client.go:507-510 | a value is read from a text if and only if the text, up to white space around it, is the text of one of its parse trees, with any white space between the tokens: broken texts and trailing characters are refused |
| JsonGrammar.ParseTextInverts | internal/memgraph/client.go:507-510 | the JSON text of a value (objects, integers, strings without escapes) is read back as that value |
| DataReading.FieldsExactly | internal/memgraph/client.go:507-510 | the fields of a database: the last member of each name counts, missing ones are zero or empty, unknown ones are ignored, and a wrong type or a number beyond 64 bits is an error |
| DataReading.EntriesExactly | internal/memgraph/client.go:507-510 | the map has exactly the keys of the members, and each holds what the last member with that key describes; any faulty member is an error |
| DataReading.ParseDataInfoExactly | internal/memgraph/client.go:498-516 | for every text and every non-empty map: the text is read as the map if and only if, trimmed and with its bare keys quoted, it is a JSON text of an object that describes the map; so whatever is broken counts as no data |
| MapLiteral.QuotingYieldsJson | internal/memgraph/client.go:493-510 | quoting the bare keys of a map literal of any shape, empty maps included, yields exactly the JSON text of its value, which is read back as that value |
| MapLiteral.ParseDataInfoInverts | internal/memgraph/client.go:498-516 | the whole per-database map comes back from its literal, whichever keys were quoted and whatever white space surrounds it |
| MapLiteral.NothingKept | internal/memgraph/client.go:499-502 | an empty cell, {} and null in any case all mean no data |
| DataInfo.SummaryOf | internal/memgraph/client.go:521-557 | the one summary of a map: its largest lag, worst status and latest timestamp (at least 0), each reached by some entry; invalid for the empty map |
| DataInfo.SummaryStatusExactly | internal/memgraph/client.go:537-555 | by the texts of the entries: invalid if some status is none of the three good ones, else recovery if some says so, else replicating if some says so, else ready, each if and only if |
| DataInfo.SummaryNumbersExactly | internal/memgraph/client.go:538-543 | the lag is the largest, also if all are negative, and the timestamp the latest positive one or 0 |
| DataInfo.SummarizeDataInfo | internal/memgraph/client.go:521-557 | the loop computes that summary for every iteration order, also when all lags are negative |
| DataInfo.SummaryOfUnion | internal/memgraph/client.go:521-557 | the summary of a disjoint union of two non-empty maps is the componentwise join of their summaries |
| DataInfo.SummaryOfNothing | internal/memgraph/client.go:522-524 | an empty map is summarised as invalid with lag and timestamp 0 |
| Classifier.ClassifyReplica | internal/controller/replica_classifier.go:65-117 | for every iteration order of both loops, with their early returns and timer writes, the timers and the class equal closed forms: invalid before behind too long before unknown before behind before healthy; negative lags have no effect |
| HealthViews.StatusesAgree | internal/controller/replica_classifier.go:119-123 | a status the summary knows, the classifier knows as the same |
| HealthViews.StatusesAgreeExactly | internal/controller/replica_classifier.go:119-123 | the two normalisations of a status agree if and only if white space does not surround the text of a good status (ready, replicating, recovery, in any case and quotes); the comment that says they are the same is wrong otherwise |
| HealthViews.StatusesCanDiffer | internal/controller/replica_classifier.go:119-123 | the status " ready" is invalid for the summary and ready for the classifier |
| HealthViews.ViewsAgree | internal/controller/replica_classifier.go:33-40 | for summarised data and any timers, a healthy summary implies class healthy, behind or behind too long; class invalid or unknown implies an invalid summary |
| HealthViews.ParsedRowSummarisedExactly | internal/memgraph/client.go:459-483 | the status of a parsed row is the summary of its data if and only if the row is not a legacy one with a status other than invalid |
| HealthViews.HealthyCountsAgree | internal/controller/replication.go:311-318 | over a whole result the metrics count at most the classifier's healthy replicas plus those behind too long |
| HealthCheck.ReplicationManager.StateFor | internal/controller/replication.go:59-71 | the state of a replica, created with stopped timers if missing; all other states are kept |
| HealthCheck.ReplicationManager.PruneStates | internal/controller/replication.go:75-85 | exactly the states of the observed replicas of one cluster remain; other clusters are untouched |
| HealthCheck.ReplicationManager.DeleteClusterState | internal/controller/replication.go:89-105 | one cluster's states go, and the timed series of exactly the replicas that had states |
| HealthCheck.ReplicationManager.CheckReplica | internal/controller/replication.go:311-364 | one row: its timers, class, warning and timed gauges |
| HealthCheck.ReplicationManager.ScanReplicas | internal/controller/replication.go:306-364 | the loop over the rows: observed names, healthy count, timers, warnings and timed gauges |
| HealthCheck.ReplicationManager.CheckReplicationHealth | internal/controller/replication.go:282-375 | the whole check: errors change nothing, HealthyReplicas is the number of healthy classifications out of TotalReplicas, and timers, warnings and gauges are those of the event specification |
| HealthHistory.CheckApplied | internal/controller/replication.go:306-366 | after a check a cluster's timer keys are exactly the listed names, a listed replica's timers are advanced once, and every other cluster is untouched |
| HealthHistory.ClusterKeyInjective | internal/controller/replication.go:299 | keys of different clusters differ when namespaces contain no slash |
| HealthHistory.TimersRefineHistory | internal/controller/replication.go:282-375 | after any sequence of successful and failed checks and deletions of any clusters, each timer is the time of the check that opened the current run of empty data_info, or the current lag, as read off the whole history; never both run |
| HealthHistory.ReportsMatchSpans | internal/controller/replica_classifier.go:65-117 | a replica is reported down exactly when its run of empty data_info has lasted strictly longer than 30 s, and behind too long exactly when this check shows a lag whose span strictly exceeds this check's threshold |
| PlainHealth.ObservationExactly | internal/controller/replica_classifier.go:65-117 | what a check adds to a history: no data, something invalid, a positive lag with nothing invalid, or neither |
| PlainHealth.ClassesExactly | internal/controller/replica_classifier.go:65-117 | each of the seven classes of a listed row, if and only if, by the status texts and lags of its data_info and the spans of its history against 30 s and the threshold |
| PlainHealth.ThresholdExactly | internal/controller/replication.go:293-296 | the threshold is the configured one if positive and 5 min otherwise |
| PlainHealth.HealthyCountExactly | internal/controller/replication.go:311-318 | HealthyReplicas is the number of rows that are silent for no longer than 30 s, or have only good statuses and are not behind too long |
| PlainHealth.WarningsExactly | internal/controller/replication.go:337-363 | a replica is warned about if and only if one of its rows is silent too long, says invalid, or is behind too long |
| HealthHistory.WarningsChecked | internal/controller/replication.go:337-363 | a warning is emitted exactly for the rows of those classes that have one |
| HealthGauges.ChannelGaugeExactly | internal/controller/replication.go:322-327 | the channel gauge of a listed replica is up exactly when it has data, nothing invalid, and nothing unknown unless it is behind too long |
| HealthGauges.BehindGaugeReadsHistory | internal/controller/replication.go:329-333 | the lag gauge reads the time since the check that opened the current lag, and 0 without one |
| HealthGauges.SeriesOutliveTimers | internal/controller/replication.go:366 | the stateful series and the timers agree after a check if and only if every earlier series belongs to a listed replica, since pruning leaves series behind |
| HealthGauges.SeriesLeftBehind | internal/controller/replication.go:366 | two checks that list first "a" and then "b" leave a series for "a" and no timer |
| HealthGauges.DroppedLosesSeries | internal/controller/replication.go:262-272 | a replica the operator drops leaves no stateful series unless the following check lists it |
| Metrics.MetricsRecorder.RecordReplicaSet | internal/controller/metrics.go:394-438 | the cluster's old series are swept and each row, the totals and the all-healthy flag recorded |
| Metrics.MetricsRecorder.SetStatus | internal/controller/metrics.go:411-417 | one series for every known status, set for the row's own status only |
| Metrics.MetricsRecorder.DeleteClusterMetrics | internal/controller/metrics.go:530-555 | all modelled series of one cluster go and no others |
| Metrics.MetricsRecorder.DeleteReplicaMetrics | internal/controller/metrics.go:574-577 | exactly the two stateful series of one replica go |
| Metrics.GaugesShowLastRecording | internal/controller/metrics.go:394-438 | after any recordings and deletions across clusters, each series shows the matching row of its cluster's last recording and is absent otherwise; totals, healthy totals and the all-healthy flag likewise |
| Metrics.OneHotStatus | internal/controller/metrics.go:411-417 | the status labels are one-hot for a known status and all off otherwise |
| Metrics.CountHealthyExactly | internal/memgraph/client.go:146-148 | the healthy replicas are the rows whose status is ready or replicating |
| Metrics.RowPredicatesExactly | internal/controller/metrics.go:405-417 | data_info counts as present if it is not empty, and each status gauge stands for one text |
| Pods.GetReadyPodsSorted | internal/controller/replication.go:442-453 | the ready pods in name order |
| Pods.ReadyExactly | internal/controller/memgraphcluster_controller.go:490-501 | a pod is ready if and only if its phase is Running and it has a condition Ready with status True |
| GoStrings.LessExactly | internal/controller/replication.go:449-451 | names are in order if one is a proper prefix of the other or the first difference decides |
| Pods.ReadySortedOrderFree | internal/controller/replication.go:442-453 | pod lists with the same ready names are visited in the same order of names, strictly ascending |
| Replication.EnsureMainRole | internal/controller/replication.go:197-224 | the role is read, and set unless it was read as MAIN |
| Replication.EnsureReplicaRole | internal/controller/replication.go:227-244 | the role is read, and set unless it was read as REPLICA |
| Replication.CleanupStaleReplicas | internal/controller/replication.go:247-275 | every listed name that is not expected is dropped, whatever drops fail, and the series of the dropped go |
| Replication.ConfigureReplication | internal/controller/replication.go:109-194 | the calls, their effects and the result of a pass are those of `Configured`, for every failure pattern; it fails only if MAIN cannot be put in place |
| Replication.Others | internal/controller/replication.go:148-151 | the ready pods other than the main, none left out |
| ReplicationSafety.SettledIsDistanceZero | internal/controller/replication.go:109-275 | distance zero means write instance MAIN, all other ready pods REPLICA, and exactly the expected registrations |
| ReplicationSafety.PassTrace | internal/controller/replication.go:109-275 | a pass is a chain of calls, each executed as the failure pattern says and each aimed at the wanted state |
| ReplicationSafety.CallProgress | internal/controller/replication.go:109-275 | a call that changes the cluster at all lowers the distance by exactly one |
| ReplicationSafety.TraceProgress | internal/controller/replication.go:109-275 | so a pass never raises the distance, whatever fails: the distance lost is the number of calls that changed something |
| ReplicationSafety.CompletePassSettles | internal/controller/replication.go:109-275 | a pass in which no call fails ends settled |
| ReplicationSafety.RegistrationGapsExplained | internal/controller/replication.go:131-186 | measured from SHOW REPLICAS: the final registrations lie between initial and expected, each gap has its failed call, each surviving stale name a failed DROP or SHOW, and a failed SHOW drops nothing |
| ReplicationTrace.MainComesFirst | internal/controller/replication.go:126-186 | no role change elsewhere, REGISTER or DROP comes before MAIN was confirmed or set |
| ReplicationTrace.RegisterFollowsReplica | internal/controller/replication.go:157-176 | each REGISTER follows the confirmation or setting of REPLICA on the very pod it registers |
| ReplicationTrace.CommandsExactly | internal/controller/replication.go:148-275 | each command of a pass, field by field: REGISTER goes to the main, for another ready pod, with its name with underscores for hyphens, its host name under the headless service and the namespace, and the configured mode or else ASYNC; DROP goes to the main, for a name that belongs to no other ready pod; roles are only set as wanted |
| ReplicationTrace.ReplicaNameInjective | internal/controller/replication.go:456-459 | pods with underscore-free names have different replica names |
| ReplicationTrace.NamesSafe | internal/controller/replication.go:146-186 | the main is never registered with itself, and no name is both registered and dropped in a pass |
| ReplicationTrace.NoCommandTwice | internal/controller/replication.go:109-275 | no command occurs twice in a pass, so a failure pattern indexed by commands covers all failures |
| ReplicationTrace.RegistrationsStayDistinct | internal/controller/replication.go:165-176 | no command makes a registration appear twice |
| ReplicationRuns.ListOrderIrrelevant | internal/controller/replication.go:115 | neither the calls nor the outcome depend on the order in which pods are listed, nor on anything about them but which names are ready |
| ReplicationRuns.SettledStays | internal/controller/replication.go:109-275 | in a settled cluster a pass changes nothing whatever fails, and only reads if nothing fails |
| ReplicationRuns.RunConserves | internal/controller/replication.go:109-275 | over a whole run in which the same names are ready and calls fail, the calls that change something number exactly the distance lost |
| ReplicationRuns.Converges | internal/controller/replication.go:109-275 | after any run with restarts, reconfigurations and failures, one complete pass settles the cluster, and no later passes that find the same names ready change it |
| Election.DetermineWriteInstance | internal/controller/memgraphcluster_controller.go:461-488 | the outcome is the elected pod: the recorded one while ready, else the preferred one if ready (even with high availability disabled), else the first ready one, else none |
| Election.ChosenIsReady | internal/controller/memgraphcluster_controller.go:461-488 | the choice is a ready listed pod, and empty exactly when no pod is ready |
| Election.ElectionExactly | internal/controller/memgraphcluster_controller.go:461-501 | by phases and conditions: a choice runs and is ready, there is none if and only if no such pod is listed, the recorded pod is kept if and only if it is one, then the preferred one is taken if it is one, and else the first |
| Election.KeptWhileReady | internal/controller/memgraphcluster_controller.go:462-469 | a recorded write instance is kept exactly while it is listed and ready |
| Election.HandleMainFailover | internal/controller/replication.go:379-439 | an error without high availability or candidates; otherwise the preferred pod if it qualifies, else the first other ready pod |
| Election.FailoverExactly | internal/controller/replication.go:379-439 | by phases and conditions: which error, or which pod that runs and is ready |
| Election.FailoverAgrees | internal/controller/replication.go:379-439 | with high availability enabled, failing over from the recorded write instance gives what the election gives if and only if that pod is not ready |
| Election.FailoverAvoidsFailed | internal/controller/replication.go:399-439 | failover only ever promotes a ready pod other than the failed one |
| ClusterStatus.MemgraphCluster.UpdateStatus | internal/controller/memgraphcluster_controller.go:504-545 | phase, write and read instances, counts and conditions of the report |
| ClusterStatus.MemgraphCluster.UpdateConditions | internal/controller/memgraphcluster_controller.go:548-596 | the four conditions, independently of what held before |
| ClusterStatus.ReadAndWritePartition | internal/controller/memgraphcluster_controller.go:504-539 | read instances and write instance partition the ready pods, and ReadyInstances counts them |
| ClusterStatus.InstancesExactly | internal/controller/memgraphcluster_controller.go:504-539 | by phases and conditions: the ready pods are counted, and those other than the choice are the read instances; the registered replicas and the choice are reported as they are, and the snapshot time is carried over |
| ClusterStatus.PhaseAndConditionsExactly | internal/controller/memgraphcluster_controller.go:518-596 | each phase and each condition, if and only if, by the numbers of ready, desired (3 if unset), registered and healthy instances |
| ClusterStatus.ReplicasReadyIsRunning | internal/controller/memgraphcluster_controller.go:524-569 | ReplicasReady is equivalent to phase Running if and only if at least one instance is desired or ready |
| Api.ApiServer.Write | internal/controller/memgraphcluster_controller.go:544 | a write takes effect, or fails, or takes effect although it is reported as failed |
| Reconciler.Reconciler.ReconcileWriteService | internal/controller/memgraphcluster_controller.go:390-422 | the service is created with the choice, or re-pointed if the choice is another non-empty one, or left alone |
| Reconciler.Reconciler.ReplicateAndCheck | internal/controller/memgraphcluster_controller.go:219-242 | replication is configured and then checked only with a choice and several pods; counts stay 0 unless both work |
| Reconciler.Reconciler.ReconcileResources | internal/controller/memgraphcluster_controller.go:189-289 | the steps of a pass in order, with the aborting and the ignored failures |
| Reconciler.Reconciler.EmitPhaseTransitionEvents | internal/controller/memgraphcluster_controller.go:680-698 | one event on entering Running, one on falling from Running to Initializing, none otherwise |
| Reconciler.Reconciler.HandleDeletion | internal/controller/memgraphcluster_controller.go:174-186 | the finalizer is removed if present |
| Reconciler.Reconciler.Reconcile | internal/controller/memgraphcluster_controller.go:64-171 | a whole pass: cleaning up after a deleted cluster, deletion, finalizer, initial phase, or the resources and the transition events |
| Lifecycle.FinalizerFirst | internal/controller/memgraphcluster_controller.go:97-104 | a new cluster only gets the finalizer |
| Lifecycle.PendingFirst | internal/controller/memgraphcluster_controller.go:106-115 | then only its first phase, and is announced |
| Lifecycle.DeletionBegins | internal/controller/memgraphcluster_controller.go:92-95 | deleting a cluster marks it if it has the finalizer and removes it otherwise |
| Lifecycle.DeletingPass | internal/controller/memgraphcluster_controller.go:174-186 | a pass over a marked cluster makes exactly one request, the removal of the finalizer, and touches nothing else |
| Lifecycle.DeletionFinishes | internal/controller/memgraphcluster_controller.go:92-95 | over any run, a marked cluster is gone if and only if some pass read it and got that request through, and the operator requests nothing else |
| Lifecycle.GonePass | internal/controller/memgraphcluster_controller.go:78-86 | a pass over a cluster that is gone writes nothing and deletes its timers and its series, and no others |
| Lifecycle.UnreadablePass | internal/controller/memgraphcluster_controller.go:87-89 | a pass that cannot read the cluster does nothing |
| ReconcileRuns.WriteInstanceChanges | internal/controller/memgraphcluster_controller.go:461-488 | the recorded write instance is given up only by a pass that lists the pods without it among the ready ones, for a ready pod of that list or, exactly if none is ready, for nothing |
| ReconcileRuns.WriteInstanceStays | internal/controller/memgraphcluster_controller.go:461-545 | through any run with any failures, a write instance stays one as long as every listing finds it ready |
| ReconcileRuns.WriteServiceTracksChoices | internal/controller/memgraphcluster_controller.go:390-422 | after any run with any API failures, the write service points at the last non-empty choice applied to it |
| ReconcileRuns.ServiceExactly | internal/controller/memgraphcluster_controller.go:390-422 | where the write service points after a pass, in every case |
| ReconcileRuns.ReportsExactly | internal/controller/memgraphcluster_controller.go:189-269 | a pass over an established cluster gets as far as its report if and only if none of the steps before replication fails; a failure of replication or snapshots never stops it |
| ReconcileRuns.RequestsExactly | internal/controller/memgraphcluster_controller.go:189-269 | the write requests of such a pass, in order: what is wanted of the write service, then of the CronJob, then the status, and nothing else |
| ReconcileRuns.WriteServiceNeverReset | internal/controller/memgraphcluster_controller.go:408-419 | an outage never empties the selector, and a new target is a ready pod of the list it was elected from |
| ReconcileRuns.ReportedIsServed | internal/controller/memgraphcluster_controller.go:209-269 | a write instance that a pass reports is one the write service already points at |
| PhaseEvents.PhaseEventsBalance | internal/controller/memgraphcluster_controller.go:107-138 | over any run of a new cluster, deleted or not: ready events plus lost ones equal degraded events plus lost ones plus Running-to-Pending steps plus removals while running plus one if running; the phase Failed is never reached |
| PhaseEvents.PhaseEventsCountPhase | internal/controller/memgraphcluster_controller.go:117-138 | over any run of a new cluster, counting events tells whether it is running if and only if as many ready as degraded events were lost to unacknowledged status writes |
| PhaseEvents.NothingLost | internal/controller/memgraphcluster_controller.go:266-269 | no event is lost if every status write is acknowledged |
| PhaseEvents.LostAcknowledgement | internal/controller/memgraphcluster_controller.go:266-269 | every unacknowledged write of phase Running leaves the cluster running without a ready event |
| PhaseEvents.CountCanFail | internal/controller/memgraphcluster_controller.go:266-269 | a new cluster of one instance that is running after three passes with no ready event |
| PhaseEvents.WorkingEventsExactly | internal/controller/memgraphcluster_controller.go:127-138 | all events of a pass over an established cluster, in order, and when each is emitted: the moved service, the failed replication, and then either the phase transition or the failed pass |
| Readiness.PassMakesMain | internal/controller/replication.go:127-129 | a successful pass of the protocol leaves its main in the role MAIN |
| Readiness.ReportExactly | internal/controller/memgraphcluster_controller.go:219-269 | what a pass reports, by its inputs: the choice, the ready pods, the rows of its own health check if it made one and 0 otherwise, the latest successful snapshot, the phase, and whether replication is healthy |
| Readiness.ReadyExactly | internal/controller/memgraphcluster_controller.go:219-242 | with at least two desired instances a pass reports Ready if and only if it elected a write instance, enough pods are ready, and replication was configured and checked in this pass with enough replicas, all healthy |
| Readiness.ReadyIsSound | internal/controller/memgraphcluster_controller.go:587-595 | then the write instance is ready and MAIN, and at least replicas - 1 replicas are registered with it, every one of them classified healthy in this pass |
| Readiness.SingleInstanceReadyExactly | internal/controller/memgraphcluster_controller.go:575-595 | with one desired instance Ready says nothing about replication unless a check was made: it is reported even if MAIN could not be put in place |
| Readiness.ReadyWithoutMain | internal/controller/memgraphcluster_controller.go:575-595 | one desired instance whose pod stays REPLICA because setting its role fails, and which is reported Ready |
| SteadyState.CompletePassSteadies | internal/controller/memgraphcluster_controller.go:189-289 | a pass in which no call fails brings write instance, write service, roles, registrations and CronJob in line if and only if it elected a pod and either lists more than one pod or found replication settled |
| SteadyState.LoneReplicaStays | internal/controller/memgraphcluster_controller.go:223 | a lone pod in the role REPLICA is elected and served by a pass in which nothing fails, and does not become MAIN |
| SteadyState.SinglePodUntouched | internal/controller/memgraphcluster_controller.go:223 | over any run whose passes list at most one pod, roles and registrations are never touched |
| SteadyState.SteadyStep | internal/controller/memgraphcluster_controller.go:189-289 | in the steady state a pass over the same spec that finds the same names ready may fail anywhere, yet writes at most a status |
| SteadyState.SteadyRun | internal/controller/memgraphcluster_controller.go:189-289 | and so for whole runs: nothing but the reported status is ever written again |
| RunHistories.RunHealth | internal/controller/memgraphcluster_controller.go:219-242 | after any run of passes, the timers are those of the checks and deletions the run made, the gauges those of their recordings, and a stateful series is there if and only if its replica was listed and since then neither dropped nor deleted with its cluster |
| RunHistories.RunTimersRefineHistory | internal/controller/replication.go:282-375 | so after any run of passes each timer is what the history of the run says |
| RunHistories.RunGaugesShowLastCheck | internal/controller/memgraphcluster_controller.go:234-238 | and each gauge series shows the matching row of the last check of its cluster since that was deleted |
| CronJobs.SnapshotContainersEqual | internal/controller/snapshot.go:410-422 | containers are equal if they agree in number and, one by one, in name, image and arguments |
| CronJobs.SnapshotCronJobNeedsUpdate | internal/controller/snapshot.go:386-405 | an update is needed exactly when the specs differ after blanking what is not compared, so not needing one is an equivalence relation that defaulting of uncompared fields cannot break |
| CronJobs.UpdateNeededExactly | internal/controller/snapshot.go:386-422 | the compared fields one by one: a difference in any of them, and in no other, calls for an update |
| Snapshot.ReconcileSnapshotCronJob | internal/controller/snapshot.go:425-468 | at most one request: create, update, delete or nothing, with its failures |
| Snapshot.DeleteSnapshotCronJob | internal/controller/snapshot.go:471-484 | deletes the CronJob if there is one |
| Snapshot.SuccessBringsInLine | internal/controller/snapshot.go:425-484 | after a successful pass the CronJob exists if and only if snapshots are enabled, and is then as desired in every compared field |
| Snapshot.EnabledExactly | internal/controller/snapshot.go:425-429 | only an explicit setting disables snapshots |
| Snapshot.SilentExactlyWhenInLine | internal/controller/snapshot.go:425-484 | a pass writes nothing exactly when the CronJob cannot be read or is in line |
| Snapshot.SecondPassWritesNothing | internal/controller/snapshot.go:425-484 | after a successful pass, later passes write nothing, whatever fails in them and whatever uncompared fields change |
| Snapshot.WholeSpecWrittenExactly | internal/controller/snapshot.go:453-465 | the stored CronJob becomes the desired one with the server's defaults except exactly when the two differ in uncompared fields only |
| Snapshot.EnvironmentDriftIgnored | internal/controller/snapshot.go:410-422 | an edit of a container's environment alone never reaches the CronJob |
| Snapshot.LatestCompletion | internal/controller/snapshot.go:499-513 | the latest completion time among successful jobs, in any order, or none |
| Snapshot.UpdateSnapshotStatus | internal/controller/snapshot.go:487-520 | the reported time becomes that one, and stays if listing fails or no job has completed |
| Snapshot.SnapshotTimeExactly | internal/controller/snapshot.go:499-517 | the latest time at which a listed job that is complete completed, or the earlier report if there is none or listing fails |

## Left out

- Input and output: executing commands in pods, the Kubernetes client and its caches, TLS, leader election, flags and logging. Each call keeps only whether it succeeds and what it changes.
- The texts of events and log lines, all events of the protocol and of snapshots, and the counters and histograms of reconcile operations. Of the reconcile events those about phases, errors and the write service are kept.
- Headless service, read service and StatefulSet: a pass only sees whether reconciling them failed.
- Builders of Kubernetes objects; the desired snapshot CronJob is a parameter, and of the write service only the pod in its selector is kept.
- Validation, storage information and drift metrics: they depend on the live database and floating point.
- JSON outside objects, integers and strings without escapes; it is treated as text that cannot be parsed. Field names are matched in exact case, where Go also accepts other cases.
- Lower-casing and case-insensitive comparison are exact for all characters that lower-case to an ASCII letter, and leave other characters alone, which no comparison of the code can notice.
- TablePrinter.ParseInvertsPrint: the printed cells contain no bars or newlines and no quotes at their ends; database names are identifiers, lags and timestamps 64-bit integers, statuses free of quotes, backslashes, control characters, braces and commas, and map literals in Memgraph's own spacing. Other texts are not what the documented format prints.
- Replication.ConfigureReplication: the number of registered replicas, which is only logged, is not part of the result.
- Replication: registrations are matched by name only, as in the code, so nothing is said about the host or mode of a registration that already exists.
- Pods.GetReadyPodsSorted: sorting is modelled by its result on distinct names, not by Go's sorting algorithm.
- HealthCheck.ReplicationManager.CheckReplicationHealth: the lock is not modelled (checks are sequential), a metrics recorder is always present, and gauges hold exact integers instead of floating-point numbers.
- Reconciler.Reconciler.ReconcileResources: the delay until the next pass is not modelled; counts are unbounded where the source uses 32 bits.
- Memgraph's own replication semantics (epochs, divergence, transfer of data) and whether replicas hold the right data.
