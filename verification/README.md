# Cluster monitor: verification model

The cluster monitor has an agent in every Kubernetes cluster that periodically collects a cluster snapshot (nodes,
GPUs, memory, pods) and GPU telemetry, and sends both to a server, which keeps them as histories and answers
time-series queries. This project models, and proves properties of,

* the two list handlers of the server: query window, hourly buckets, grouping, averaging, layout
  (`TimeWindow`, `SnapshotValues`, `SnapshotHandler`, `GpuValues`, `GpuHandler`, with the results about their
  responses in `SnapshotTheorems`, `SnapshotOverflow`, `SnapshotResponses`, `GpuTheorems`, `GpuResponses`, and read
  off the tables and messages directly in `SnapshotMeaning`, `SnapshotAnswers`, `GpuMeaning`, `GpuAnswers`);
* the store and the worker endpoint that writes to it (`Store`, `WorkerServer`, `StoreRuns`);
* the pipeline from the agent's collectors over an unbuffered channel and the sender to the tables, as a step system
  with any number of runs, interleaved down to the single table write, with failures and restarts (`Pipeline`,
  `PipelineTheorems`, and, joined to the handlers and the collectors, `EndToEnd`);
* the agent's own aggregation (`Samples`, `AgentGpu`, `AgentMessages`, `AgentMeaning`, `AgentSnapshot`);
* the TypeScript client's stream decoder and payload flattener (`StreamDecoder`, `Payloads`, `Flattening`,
  `Unflattening`, `SearchParams`).

`GoInt` has Go's int32 and int64 with wrap-around and truncating division, `Reals` the exact numbers that stand for
floats, `Telemetry` the messages and `Kubernetes` the nodes the agent reads; `Seqs`, `Ordering`, `Folds`, `Grouping`,
`GroupTotals`, `Tally`, `Figures` and `FirstErrors` are the shared theory of grouped totals. Code that changes state
is modelled by methods over classes, maps and loops; each is proved against a declarative definition, and the
properties are lemmas about that definition. Map iteration in Go is an arbitrary choice of the next key; a database
list is any permutation of the matching records, and any database call may be refused; the store counts refusals,
so that a handler's store failure means that a call was refused. `time.Now()`, identities,
Kubernetes lists, samples, number parsing, text rendering and the parsing of one JSON line are parameters.

Results about the code that a reader may not expect:

* Overflow: Go averages wrapped int32 and int64 totals, narrows memory to an int32 of GB, and adds groups in int32. For
  fewer than 2^31 histories a group's reported figures are the true averages exactly if every total fits its type and
  the average memory in GB fits an int32 (`SnapshotOverflow.ReportedExactIff`); an ungrouped value over exactly
  reported groups is their sum exactly if that sum fits an int32 in every field
  (`SnapshotOverflow.UngroupedExactIff`). Each of the three stages has an input on which it fails: two nodes of
  2^31 - 1 GPUs in one history are reported with -2 GPUs (`OverflowingCapacity`), one node of 2^61 bytes with -2^31 GB
  though every total fits (`OverflowingMemory`), and two clusters of 2^31 - 1 GPUs, each reported right, together with
  -2 (`OverflowingSum`).
* A reported memory average exceeds its maximum exactly if the wrapped sum is at least the count times one byte more
  than the maximum (`GpuTheorems.MemoryAverageAtMostMaximumIff`); three negative averages that add up to less than
  -2^63 bytes do that (`GpuTheorems.UnderflowingMemory`).
* The server alone does not keep GPU telemetry visible (`StoreRuns.GpuAloneIsInvisible`): a request with only GPU
  telemetry leaves a history that no query starts from. A request keeps it visible exactly if its cluster is known, or
  it carries a snapshot, or it carries no GPU telemetry (`StoreRuns.RequestKeepsGpuRowsIff`); wherever the database
  may stop it, exactly if the cluster is known or the first payload is not GPU telemetry
  (`StoreRuns.RequestSafeWhereverStoppedIff`). That every reachable state is free of such histories
  (`PipelineTheorems.NothingIsStoredInvisibly`) rests on the agent's order of collectors, the unbuffered channel and
  the sender stopping at the first failed call.
* A pending payload can still get through exactly if the sender runs and the server has not refused the request
  before it; otherwise the run never gets anything acknowledged again
  (`PipelineTheorems.PendingCanBeAcknowledgedIff`).
* Flattening loses leaves exactly if two of them get the same name (`Flattening.NothingLostIffNamesDiffer`), which
  keys with dots and empty keys can cause (`Unflattening.DottedAndEmptyKeysCollide`).
* An unterminated last line of a stream is never decoded: only complete lines are (`StreamDecoder.Decode`).
* The GPU handler looks the cluster name up for every history when it lists nodes, but for every node when it
  computes values (`GpuValues.ListError`, `GpuValues.NodeError`).

## Model

| member | source | states |
|---|---|---|
| GoInt.WrapMeaning | server/internal/server/cluster_snapshot.go:137-141 | A wrapped sum differs from the sum by a multiple of 2^32 or 2^64 |
| GoInt.QuotMeaning | server/internal/server/cluster_snapshot.go:147-151 | Division truncates toward zero: the remainder is less than the divisor and has the dividend's sign |
| Ordering.StringLessMeaning | server/internal/server/cluster_snapshot.go:216-216 | Strings are ordered by their first difference, a proper prefix first |
| TimeWindow.GetStartEndTime | server/internal/server/cluster_snapshot.go:247-286 | On success both ends are hour-aligned, in order, and within an hour of what the filter or the defaults ask for; each error occurs exactly for its cause, the empty window exactly if both timestamps are accepted and the start hour is not before the end hour |
| TimeWindow.BucketByHour | server/internal/server/cluster_snapshot.go:68-72 | The one-pass bucket of every hour equals a direct filter of the list by that hour, in list order |
| TimeWindow.BucketsPartition | server/internal/server/cluster_snapshot.go:68-87 | The hourly sets of an aligned window add up, as multisets, to everything fetched for it |
| SnapshotValues.GetGroupingValue | server/internal/server/cluster_snapshot.go:221-245 | The key is the cluster's name, or the node's product or "unknown"; grouping fails exactly for an unnamed cluster or an unknown mode |
| Tally.GroupNodes | server/internal/server/cluster_snapshot.go:118-142 | Adding a history's nodes one by one keeps, for every key, the wrapped total over all its nodes and the number of histories that contain it |
| Tally.AverageAll | server/internal/server/cluster_snapshot.go:145-152 | Every statistic is averaged once, whatever the order of map iteration |
| SnapshotValues.Group | server/internal/server/cluster_snapshot.go:109-143 | The statistics are the tallies of all histories, or the error is that of the first bad history |
| SnapshotValues.Collapse | server/internal/server/cluster_snapshot.go:154-165 | The single value is the int32 sum over all groups, independent of map order |
| SnapshotValues.CalculateSnapshotValues | server/internal/server/cluster_snapshot.go:95-189 | The loops compute the declarative meaning: per group, total over all nodes divided by the number of histories containing it, collapsed or laid out with zeros |
| SnapshotValues.GetAllGroupingValues | server/internal/server/cluster_snapshot.go:191-219 | The list is the strictly ascending list of exactly the keys of all histories; errors as in grouping |
| SnapshotTheorems.ValuesOrderIndependent | server/internal/server/cluster_snapshot.go:112-165 | Permuting histories, and nodes inside snapshots, changes neither the values nor the keys |
| SnapshotTheorems.UngroupedIsSumOfClusters | server/internal/server/cluster_snapshot.go:154-188 | The ungrouped value is, rounding included, the int32 sum of the values grouped by cluster, for any covering key list |
| SnapshotTheorems.ReportedMeaning | server/internal/server/cluster_snapshot.go:145-152 | Divisors are at least one for every present key, every figure is the (wrapped) total over the divisor, and the two divisions of memory are one division by count times 2^30, for either sign |
| SnapshotTheorems.AverageInRange | server/internal/server/cluster_snapshot.go:145-163 | Each reported figure lies between the least and greatest amount one history contributes |
| SnapshotOverflow.AveragesExactIffTotalsFit | server/internal/server/cluster_snapshot.go:137-151 | The averaged fields, before memory is converted, are those of the true totals exactly if no total overflows |
| SnapshotOverflow.ReportedExactIff | server/internal/server/cluster_snapshot.go:137-185 | The reported figures of a group are the true averages exactly if no total overflows and the memory in GB fits an int32 |
| SnapshotOverflow.UngroupedExactIff | server/internal/server/cluster_snapshot.go:154-165 | Over exactly reported groups the ungrouped value is the exact sum exactly if the sum fits an int32 in every field |
| SnapshotOverflow.OverflowingCapacity | server/internal/server/cluster_snapshot.go:137-148 | One history with two nodes of 2^31 - 1 GPUs each is reported with -2 GPUs |
| SnapshotOverflow.OverflowingMemory | server/internal/server/cluster_snapshot.go:182-182 | One history with one node of 2^61 bytes is reported with -2^31 GB, though every total fits |
| SnapshotOverflow.OverflowingSum | server/internal/server/cluster_snapshot.go:157-163 | Two clusters reported right with 2^31 - 1 GPUs each are reported with -2 GPUs together |
| SnapshotTheorems.ReplicationInvariant | server/internal/server/cluster_snapshot.go:132-152 | k copies of each of a bucket's histories, in any order, give the same values, rounding included |
| SnapshotTheorems.OccupancyWithinCapacity | server/internal/server/cluster_snapshot.go:137-165 | If no node is occupied beyond capacity, no value is, in any grouping mode, while the GPU totals stay in range |
| SnapshotTheorems.NodesConserved | server/internal/server/cluster_snapshot.go:120-142 | Group totals along a covering key list add up to the totals of all nodes of the bucket |
| SnapshotMeaning.TotalsAreNodeSums | server/internal/server/cluster_snapshot.go:120-142 | The five totals of a group are the number of its nodes and the sums of their GPU capacities, memory capacities, occupied GPUs and pods |
| SnapshotMeaning.ReportedIsOfNodes | server/internal/server/cluster_snapshot.go:118-185 | Every reported figure is that sum over the nodes, divided by the number of histories with a node of the group; a key is present exactly if there is one |
| SnapshotHandler.Gather | server/internal/server/cluster_snapshot.go:50-60 | Fetching cluster by cluster yields exactly one query for all the tenant's clusters, and the map of their names |
| SnapshotHandler.Answer | server/internal/server/cluster_snapshot.go:67-87 | One datapoint per hour of the window, each computed from that hour's histories |
| SnapshotHandler.ListClusterSnapshots | server/internal/server/cluster_snapshot.go:25-93 | Every success is the response read off the tables; a store failure is returned exactly if the database refused a call, and any other failure is a stated fault of the request or the tables |
| SnapshotHandler.BucketFails | server/internal/server/cluster_snapshot.go:78-81 | The error of a bucket is unreachable once the key list has been computed |
| SnapshotResponses.HoursPartitionTheWindow | server/internal/server/cluster_snapshot.go:67-87 | The hourly histories of a response partition the tenant's histories in the window |
| SnapshotResponses.NamesAreNeverMissing | server/internal/server/cluster_snapshot.go:231-234 | No tables make the handler fail with a missing cluster name |
| SnapshotResponses.GroupedResponsesAreRectangular | server/internal/server/cluster_snapshot.go:167-219 | Every datapoint lists the same strictly ascending keys, which cover every hour |
| SnapshotResponses.UngroupedResponseSumsClusters | server/internal/server/cluster_snapshot.go:154-188 | Datapoint by datapoint, the ungrouped response is the sum of the one grouped by cluster |
| SnapshotResponses.ResponseDependsOnTenantOnly | server/internal/server/cluster_snapshot.go:34-65 | The response is a function of the tenant's rows and their histories in the window, up to order |
| SnapshotResponses.ResponsesAreInRange | server/internal/server/cluster_snapshot.go:67-189 | Every grouped value of every datapoint lies between the least and greatest amount one history of its hour contributes |
| SnapshotResponses.ResponsesKeepOccupancyWithinCapacity | server/internal/server/cluster_snapshot.go:67-189 | If no node of an hour is occupied beyond capacity, no value of its datapoint is, in any grouping mode |
| SnapshotResponses.ResponseOfCopies | server/internal/server/cluster_snapshot.go:67-189 | If the tenant's histories are there k times each, in any order, the response is the same |
| SnapshotResponses.StoredNodeIsCounted | server/internal/server/cluster_snapshot.go:67-189 | Every node of every history of the tenant in the window is counted in its hour, under a key that a grouped datapoint lists and that the ungrouped value sums, in the totals of exactly the nodes of that hour |
| SnapshotAnswers.OnlyTheTenantsHistories | server/internal/store/cluster_snapshot.go:69-96 | A response is made from exactly the histories of clusters whose row belongs to the tenant, in the half-open window, each as often as stored |
| SnapshotAnswers.OnlyTheHoursHistories | server/internal/server/cluster_snapshot.go:68-77 | A datapoint is made from exactly the histories created within 3600 seconds of its start |
| SnapshotAnswers.OtherTenantsDoNotMatter | server/internal/server/cluster_snapshot.go:34-65 | Tables that agree on the tenant's rows and on those clusters' histories in the window give the same response |
| SnapshotAnswers.ResponseShape | server/internal/server/cluster_snapshot.go:75-92 | One datapoint per 3600 seconds, stamped with its start in seconds, and the cluster count is the number of the tenant's rows |
| SnapshotAnswers.DefaultWindow | server/internal/server/cluster_snapshot.go:19-21 | Without a filter the window is 168 hours up to the hour boundary nearest to now |
| SnapshotAnswers.GroupedValuesAreOfNodes | server/internal/server/cluster_snapshot.go:109-188 | Every grouped value of a response is that of its group's nodes in its hour |
| SnapshotAnswers.UngroupedValuesAreSums | server/internal/server/cluster_snapshot.go:154-165 | Every field of the ungrouped value is the int32 sum of that field over the values grouped by cluster |
| SnapshotAnswers.ListedKeys | server/internal/server/cluster_snapshot.go:191-219 | A grouped response lists exactly the keys under which some history of the window has a node |
| SnapshotAnswers.WhenRejected | server/internal/server/cluster_snapshot.go:40-65 | A request is refused for its own or the tables' sake exactly if the tenant has no row, the window is bad, a history in it does not unmarshal, or one with nodes meets an unknown grouping |
| GpuValues.Group | server/internal/server/gpu_usages.go:101-138 | The statistics are the tallies (greatest maxima, summed averages, history counts) of all histories, or the first error |
| GpuValues.CalculateGPUUsageValues | server/internal/server/gpu_usages.go:86-171 | The loops compute the declarative meaning along the node list, with zeros for absent nodes |
| GpuValues.GetAllClusterNodes | server/internal/server/gpu_usages.go:178-215 | The list is the strictly ascending list, by cluster and then node, of exactly the nodes of all histories |
| GpuValues.ClusterNodeOrder | server/internal/server/gpu_usages.go:207-212 | The comparison given to the sort is a strict total order |
| GpuHandler.ValuesOrderIndependent | server/internal/server/gpu_usages.go:104-138 | Permuting histories and nodes changes no value |
| GpuHandler.Gather | server/internal/server/gpu_usages.go:42-52 | Fetching cluster by cluster yields exactly one query for all the tenant's clusters, and the map of their names |
| GpuHandler.Answer | server/internal/server/gpu_usages.go:59-79 | One datapoint per hour of the window, each computed from that hour's histories |
| GpuHandler.ListGpuUsages | server/internal/server/gpu_usages.go:18-84 | Every success is the response read off the tables; a store failure is returned exactly if the database refused a call, and any other failure is a stated fault |
| GpuHandler.BucketFails | server/internal/server/gpu_usages.go:70-73 | The error of a bucket is unreachable once the nodes have been listed |
| GpuMeaning.AveragesAreOfEntries | server/internal/server/gpu_usages.go:112-166 | A reported GPU average times the number of histories that mention the node is the sum of its GPU averages; the memory average is the truncated quotient of the wrapped sum, in GB |
| GpuMeaning.MaximaAreOfEntries | server/internal/server/gpu_usages.go:133-165 | The reported maxima are the greatest of the node's maxima, or zero |
| GpuAnswers.OnlyTheTenantsHistories | server/internal/store/gpu_telemetry.go:31-40 | A response is made from exactly the histories of clusters whose row belongs to the tenant, in the half-open window, each as often as stored |
| GpuAnswers.OnlyTheHoursHistories | server/internal/server/gpu_usages.go:60-69 | A datapoint is made from exactly the histories created within 3600 seconds of its start |
| GpuAnswers.OtherTenantsDoNotMatter | server/internal/server/gpu_usages.go:27-52 | Tables that agree on the tenant's rows and on those clusters' histories in the window give the same response |
| GpuAnswers.ResponseShape | server/internal/server/gpu_usages.go:66-79 | One datapoint per 3600 seconds, stamped with its start in seconds |
| GpuAnswers.ValuesAreOfEntries | server/internal/server/gpu_usages.go:101-170 | Every value of a response has the averages and maxima of its node's entries in its hour |
| GpuAnswers.ListedNodes | server/internal/server/gpu_usages.go:178-201 | A response lists exactly the nodes that some history of the window mentions |
| GpuAnswers.NodesInOrder | server/internal/server/gpu_usages.go:207-212 | Nodes are in the order of cluster names, and of node names within a cluster |
| GpuAnswers.WhenRejected | server/internal/server/gpu_usages.go:33-57 | A request is refused for its own or the tables' sake exactly if the tenant has no row, the window is bad, or a history in it does not unmarshal |
| GpuTheorems.ReportedMaximum | server/internal/server/gpu_usages.go:133-136 | A reported maximum is the least non-negative bound of all observed maxima of the node |
| GpuTheorems.MemoryAverageAtMostMaximumIff | server/internal/server/gpu_usages.go:135-166 | A memory average is at most the maximum exactly if the wrapped sum is below the count times one byte more than the maximum |
| GpuTheorems.UnderflowingMemory | server/internal/server/gpu_usages.go:136-143 | Three consistent histories whose memory averages underflow are reported with an average above the maximum |
| GpuTheorems.AverageAtMostMaximum | server/internal/server/gpu_usages.go:133-144 | With averages at most maxima and no node repeated in a message, reported averages are at most reported maxima |
| GpuTheorems.ReplicationInvariant | server/internal/server/gpu_usages.go:128-144 | k copies of a bucket's histories give the same maxima and averages |
| GpuTheorems.ValuesReplicate | server/internal/server/gpu_usages.go:128-168 | The same for a whole datapoint |
| GpuResponses.HoursPartitionTheWindow | server/internal/server/gpu_usages.go:59-79 | The hourly histories of a response partition the tenant's histories in the window |
| GpuResponses.NamesAreNeverMissing | server/internal/server/gpu_usages.go:113-116 | No tables make the handler fail with a missing cluster name |
| GpuResponses.ResponsesAreRectangular | server/internal/server/gpu_usages.go:146-215 | Every datapoint lists the same strictly ascending nodes, which cover every hour |
| GpuResponses.EveryNodeCountsOnce | server/internal/server/gpu_usages.go:104-168 | The totals behind a datapoint add up to those of all nodes of the hour |
| GpuResponses.ResponseDependsOnTenantOnly | server/internal/server/gpu_usages.go:27-52 | The response is a function of the tenant's rows and their histories in the window, up to order |
| GpuResponses.ResponseOfCopies | server/internal/server/gpu_usages.go:59-168 | If the tenant's histories are there k times each, in any order, the response is the same |
| GpuResponses.StoredNodeIsReported | server/internal/server/gpu_usages.go:59-168 | Every node of every history of the tenant in the window has a value in its hour that dominates it |
| GpuResponses.AveragesAtMostMaxima | server/internal/server/gpu_usages.go:133-166 | If the tenant's messages in the window are well-formed, no value of the response has an average above its maximum |
| GpuResponses.NoUnderflow | server/internal/server/gpu_usages.go:136-136 | Memory averages that are not negative have a sum that is not |
| Store.Store.CreateOrUpdateClusterSnapshot | server/internal/store/cluster_snapshot.go:33-57 | A new cluster gets its row, a known one keeps its tenant and takes the new name, and a refusal changes nothing |
| Store.Store.CreateClusterSnapshotHistory | server/internal/store/cluster_snapshot.go:78-84 | Appends the record or changes nothing |
| Store.Store.CreateGPUTelemetryHistory | server/internal/store/gpu_telemetry.go:22-28 | Appends the record or changes nothing |
| Store.Store.ListClusterSnapshotsByTenantID | server/internal/store/cluster_snapshot.go:69-75 | Lists exactly the rows whose tenant is the given one, each once, in any order |
| Store.Store.ListClusterSnapshotHistories | server/internal/store/cluster_snapshot.go:87-96 | Lists exactly the cluster's histories in the half-open range, in any order |
| Store.Store.ListGPUTelemetryHistories | server/internal/store/gpu_telemetry.go:31-40 | Lists exactly the cluster's histories in the half-open range, in any order |
| WorkerServer.ProcessClusterSnapshot | server/internal/server/cluster_telemetry.go:47-76 | Writes the row and then the history, stopping at the first refusal |
| WorkerServer.ProcessGPUTelemetry | server/internal/server/cluster_telemetry.go:78-98 | Writes the history or nothing |
| WorkerServer.SendClusterTelemetry | server/internal/server/cluster_telemetry.go:16-45 | The tables get a prefix of the request's writes, all of them unless the database refused one, and the result says exactly which case it was |
| StoreRuns.RowsAfterWrites | server/internal/store/cluster_snapshot.go:33-57 | After any writes a cluster has a row exactly if one was written, with the first tenant and the last name |
| StoreRuns.HistoriesAfterWrites | server/internal/store/cluster_snapshot.go:78-84 | Histories only grow, by exactly the written records in order |
| StoreRuns.RequestKeepsSnapshotRows | server/internal/server/cluster_telemetry.go:29-76 | Any request, stopped anywhere, keeps a row behind every snapshot history |
| StoreRuns.UnsupportedLeavesPayloadsBefore | server/internal/server/cluster_telemetry.go:29-42 | A request whose first unsupported payload is the i-th has exactly the effects of the payloads before it |
| StoreRuns.SingletonRequest | agent/internal/sender/sender.go:64-67 | The writes of the sender's one-payload requests are that payload's |
| StoreRuns.RequestKeepsGpuRowsIff | server/internal/server/cluster_telemetry.go:29-98 | A request leaves a row behind every GPU history exactly if its cluster is known, or it carries a snapshot, or no GPU telemetry, before the first unsupported payload |
| StoreRuns.StoppedRequestKeepsGpuRowsIff | server/internal/server/cluster_telemetry.go:29-98 | The same for a request stopped after any number of writes |
| StoreRuns.RequestSafeWhereverStoppedIff | server/internal/server/cluster_telemetry.go:29-98 | It does so wherever it may be stopped exactly if its cluster is known or its first payload is not GPU telemetry |
| StoreRuns.SnapshotRequestEffects | server/internal/server/cluster_telemetry.go:47-76 | A snapshot request leaves the name it carries and the first tenant in the row, and one history with its snapshot and time |
| StoreRuns.GpuRequestEffects | server/internal/server/cluster_telemetry.go:78-98 | A GPU telemetry request leaves one history with its message and time, and nothing else |
| StoreRuns.GpuAloneIsInvisible | server/internal/server/cluster_telemetry.go:78-98 | A request with only GPU telemetry leaves a history without a cluster row |
| Pipeline.StepKeepsInv | agent/internal/sender/sender.go:50-77 | Every step of collector, channel, sender and server, in any interleaving, keeps the invariant of the whole system |
| Pipeline.InvAlways | agent/internal/collector/collector.go:76-110 | The invariant holds in every reachable state |
| Pipeline.OutstandingHasKind | agent/internal/collector/collector.go:51-65 | A run that sends GPU telemetry has had a snapshot acknowledged before |
| PipelineTheorems.ServeFollowsRequest | server/internal/server/cluster_telemetry.go:29-42 | The server's steps in the pipeline are the writes of the worker endpoint for that request, in order |
| PipelineTheorems.ExactlyOnceInOrder | agent/internal/collector/collector.go:97-110 | In every reachable state stored, held and pending payloads spell what a run produced, alternating snapshot and GPU telemetry, and the tables hold exactly the stored payloads in order |
| PipelineTheorems.NextCollected | agent/internal/collector/collector.go:51-65 | After an even number of payloads a collector hands over a snapshot, after an odd number GPU telemetry if it collects it, and only while running with nothing pending |
| PipelineTheorems.SystemGrows | server/internal/store/gpu_telemetry.go:22-28 | Histories are only appended, rows stay with their tenant, and a stopped sender acknowledges nothing more |
| PipelineTheorems.NothingAfterFirstFailure | agent/internal/sender/sender.go:69-71 | After the sender stopped, only the payload in doubt can still be stored |
| PipelineTheorems.FailuresAreFinal | agent/internal/collector/collector.go:76-107 | After a collector failure nothing more is produced, after a failed send nothing more acknowledged, whatever follows |
| PipelineTheorems.NothingIsStoredInvisibly | server/internal/server/cluster_telemetry.go:52-73 | In every reachable state every history of either kind has its cluster row |
| PipelineTheorems.RowHasTenantOfRun | server/internal/server/cluster_telemetry.go:52-56 | With fixed identities, a run's row belongs to the run's tenant |
| PipelineTheorems.CanAcknowledge | agent/internal/sender/sender.go:64-76 | A run's outstanding request, unless refused, can be brought to its acknowledgement by the run's own steps |
| PipelineTheorems.PendingCanBeAcknowledgedIff | agent/internal/sender/sender.go:50-77 | A pending payload can get acknowledged by the run's own steps exactly if the sender runs and no refusal is outstanding; otherwise nothing more ever is |
| EndToEnd.StoredGpuTelemetryIsQueryable | server/internal/server/gpu_usages.go:27-84 | Every GPU payload ever stored shows, node by node, in its tenant's response for its hour |
| EndToEnd.StoredSnapshotIsQueryable | server/internal/server/cluster_snapshot.go:34-93 | Every snapshot payload ever stored is counted, node by node, in its tenant's response for its hour |
| EndToEnd.OnlyBadRequestsAreRejected | server/internal/server/cluster_snapshot.go:35-65 | On reachable tables the handlers reject only missing clusters, bad windows and unknown groupings |
| EndToEnd.StoredWasCollected | server/internal/server/cluster_telemetry.go:83-95 | Every stored GPU message is one that a collector produced in some step |
| EndToEnd.ReportedAveragesAtMostMaxima | server/internal/server/gpu_usages.go:133-166 | In every reachable state fed by the agent's collector, every reported average is at most its maximum, unless a memory sum underflows |
| EndToEnd.AveragesAtMostMaximaFromNonNegativeSamples | server/internal/server/gpu_usages.go:133-166 | With memory samples that are not negative, every reported average is at most its maximum, without a condition on sums |
| Samples.BuildSampleMapByHost | agent/internal/collector/gpu_telemetry.go:119-140 | Per host and time the lists hold, as multisets, exactly the pod-labelled samples, and the grand total is theirs |
| Samples.TotalsDetermined | agent/internal/collector/gpu_telemetry.go:119-140 | The totals per time are those of the samples themselves, whatever the key order |
| Samples.CollectedMeaning | agent/internal/collector/gpu_telemetry.go:122-137 | A value is collected for a host and time exactly if some pod-labelled key of the host has it at that time |
| Samples.HostSum | agent/internal/collector/gpu_telemetry.go:134-136 | The totals of a host over its times add up to all its pod-labelled samples |
| AgentGpu.BuildHostnameToNodes | agent/internal/collector/gpu_telemetry.go:107-116 | A hostname maps to the last node that carries it, and nodes without a hostname are skipped |
| AgentGpu.HostsHaveDifferentNodes | agent/internal/collector/gpu_telemetry.go:107-116 | With distinct node names no node stands for two hosts |
| AgentGpu.ComputeMaxAvg | agent/internal/collector/gpu_telemetry.go:188-202 | Returns the peak and the mean of the totals per time, in any order of iteration; the mean times the number of times is the sum of all samples |
| AgentGpu.PeakMeaning | agent/internal/collector/gpu_telemetry.go:188-202 | The peak is the least non-negative bound of all totals, and the mean does not exceed it |
| AgentGpu.BuildGPUTelemetryMessage | agent/internal/collector/gpu_telemetry.go:142-186 | One node per selected host with samples of either metric, each with its converted figures |
| AgentGpu.MeanMeaning | agent/internal/collector/gpu_telemetry.go:197-199 | The mean times the number of times is the sum of the totals |
| AgentGpu.MeanBetween | agent/internal/collector/gpu_telemetry.go:197-199 | The mean lies between the least and the greatest total |
| AgentGpu.HostIsMapped | agent/internal/collector/gpu_telemetry.go:108-115 | Every hostname that a listed node carries stands for a node |
| AgentGpu.HostHasNode | agent/internal/collector/gpu_telemetry.go:108-115 | The node of a hostname is the last listed one that carries it |
| AgentMessages.Collect | agent/internal/collector/gpu_telemetry.go:52-97 | The message is a function of nodes and samples alone, up to the order of its nodes |
| AgentMeaning.MessageMeaning | agent/internal/collector/gpu_telemetry.go:142-202 | The message has a node for exactly the hosts that a listed node carries and that have pod-labelled series, under the last such node's name; its averages times 100 and the number of times are the sums of all samples, its maxima the greatest totals, memory in bytes |
| AgentMessages.MessagesAreWellFormed | agent/internal/collector/gpu_telemetry.go:157-183 | No node is repeated and no average exceeds its maximum, through averaging, conversion and truncation |
| AgentMessages.MessagesAreNonNegative | agent/internal/collector/gpu_telemetry.go:188-202 | From memory samples that are not negative come memory averages that are not negative |
| AgentSnapshot.NodeHasRecord | agent/internal/collector/cluster_snapshot.go:60-82 | Every listed node has a record under its name |
| AgentSnapshot.RecordHasNode | agent/internal/collector/cluster_snapshot.go:60-90 | Every record is that of the last listed node of its name |
| AgentSnapshot.BuildNodes | agent/internal/collector/cluster_snapshot.go:59-90 | The records of the node list by name, or the error of the first bad memory label |
| AgentSnapshot.RequestedGPUs | agent/internal/collector/cluster_snapshot.go:129-148 | The wrapped sum of the containers' limits, or an error exactly if some limit is not an int64 |
| AgentSnapshot.CountPods | agent/internal/collector/cluster_snapshot.go:97-117 | Every node's occupancy and pod count are the sum and number of the running pods with a non-zero request on it |
| AgentSnapshot.BuildSnapshot | agent/internal/collector/cluster_snapshot.go:50-127 | One loaded record per selected node, or the first label error, or else the first pod error |
| AgentSnapshot.LimitSumIsSum | agent/internal/collector/cluster_snapshot.go:130-146 | A pod's request is the sum of the GPU limits of its containers |
| AgentSnapshot.NodeLoad | agent/internal/collector/cluster_snapshot.go:97-117 | A node's load is the sum of the requests of the running pods on it, and the number of those that request any |
| AgentSnapshot.SnapshotIsOfInputs | agent/internal/collector/cluster_snapshot.go:59-122 | Every node of a snapshot has the capacity, memory in bytes and product of the last listed node of its name, and the load of the running pods on it |
| AgentSnapshot.OccupancyConserved | agent/internal/collector/cluster_snapshot.go:97-122 | Over all nodes the occupancies add up to the requests of the counted pods, and the pod counts to their number |
| AgentSnapshot.PodOrderIndependent | agent/internal/collector/cluster_snapshot.go:97-117 | The snapshot does not depend on the order of the pod list |
| StreamDecoder.Controller.constructor | ts/fetch.pb.ts:64-68 | A fresh controller has received nothing |
| StreamDecoder.Controller.Start | ts/fetch.pb.ts:75-78 | Sets an empty buffer and a cursor at its start |
| StreamDecoder.Controller.Transform | ts/fetch.pb.ts:80-99 | After any chunks the queue, the buffer and the cursor are functions of the concatenated text |
| StreamDecoder.Controller.Scan | ts/fetch.pb.ts:88-98 | The scan terminates and enqueues exactly the lines completed, up to the first that does not parse |
| StreamDecoder.Feed | ts/fetch.pb.ts:87-98 | Decoding a text and then a chunk is decoding them together |
| StreamDecoder.DecodedMeaning | ts/fetch.pb.ts:88-98 | What is decoded is the parsed complete lines up to the first bad one, and what is left is the tail if all parse |
| StreamDecoder.LinesAreText | ts/fetch.pb.ts:88-98 | Lines and tail written back to back are the text, and contain no newline |
| StreamDecoder.TextHasLines | ts/fetch.pb.ts:88-98 | They are the only such split |
| StreamDecoder.Decode | ts/fetch.pb.ts:73-102 | For every cut into chunks the values are the parsed lines of the whole text, up to the first bad one |
| StreamDecoder.DecodedValues | ts/fetch.pb.ts:90-92 | The values are those of the lines, one by one, as far as the lines parse |
| Payloads.KeptValues | ts/fetch.pb.ts:155-195 | Kept are the primitives other than the empty text, zero and false, and the non-empty arrays of primitives |
| Flattening.FlattenNamesLeaves | ts/fetch.pb.ts:172-201 | Flattening any payload spreads its kept leaves one by one under their names |
| Flattening.NothingLostIffNamesDiffer | ts/fetch.pb.ts:172-201 | For every payload no leaf is lost exactly if no two leaves get the same name |
| Flattening.LastLeafWins | ts/fetch.pb.ts:197-197 | For every payload each key has the value of the last kept leaf of that name |
| Flattening.FlattenedKeysAreLeafPaths | ts/fetch.pb.ts:172-201 | With non-empty dot-free keys, flattened keys and leaf paths correspond one to one |
| Unflattening.RoundTrip | ts/fetch.pb.ts:172-201 | Unflattening the flattened payload gives the payload without dropped values and emptied objects |
| Unflattening.FlattenIsIdempotent | ts/fetch.pb.ts:172-201 | Flattening leaves exactly the flat payloads unchanged, and its results are flat |
| Unflattening.DottedAndEmptyKeysCollide | ts/fetch.pb.ts:179-179 | A dotted or an empty key can make two leaves share a name, and one is lost |
| SearchParams.QueryIsLastLeaves | ts/fetch.pb.ts:211-232 | For every payload the query carries, under each name not in the path, exactly the texts of the last leaf of that name in order, and nothing else |
| SearchParams.QueryTexts | ts/fetch.pb.ts:218-227 | A name has one text for a primitive, one for every item of an array in order, and none if it is a non-empty path parameter |
| SearchParams.QueryIsLeaves | ts/fetch.pb.ts:211-232 | If leaf names differ, the query carries every leaf that the path does not |

## Left out

- Tally.GroupNodes: counts a group's histories in an unbounded number; the int32 counter of the code would wrap after 2^31 histories of one group in one hour.
- SnapshotValues.Group: has the same unbounded history counter.
- SnapshotValues.CalculateSnapshotValues: has the same unbounded history counter.
- GpuValues.Group: has the same unbounded history counter, and floats are exact numbers.
- GpuValues.CalculateGPUUsageValues: floats are exact numbers, so float32 rounding, infinities and NaN are not captured; the history counter is unbounded as above.
- SnapshotHandler.Answer: has no branch for the error of a bucket, because that error is unreachable (`SnapshotHandler.BucketFails`); the same holds for `GpuHandler.Answer`.
- SnapshotTheorems.AverageInRange: assumes that the group's totals fit their Go types and its bounds on memory an int32 of GB; `SnapshotOverflow.ReportedExactIff` says that figures are wrong otherwise.
- SnapshotTheorems.ReplicationInvariant: assumes that the totals fit, with and without the copies.
- EndToEnd.ReportedAveragesAtMostMaxima: assumes that the int64 sum of memory averages does not underflow (which `EndToEnd.AveragesAtMostMaximaFromNonNegativeSamples` derives from the samples), that node names in one reading are distinct, and that memory in bytes fits an int64 (out of that range the conversion is up to the platform).
- AgentGpu.ComputeMaxAvg: needs at least one time; on none the code divides zero by zero and reports NaN, which exact numbers do not have.
- AgentGpu.BuildGPUTelemetryMessage: needs at least one time for every host it is given, for the same reason.
- AgentMessages.Collect: needs every pod-labelled series to have samples, for the same reason; Prometheus returns no empty series.
- StreamDecoder.Decode: returns what was enqueued. After a line that does not parse the stream errors and drops values that were enqueued but not yet read, so what the callback has seen by then can depend on the chunks.
- WorkerServer.SendClusterTelemetry: a failure to marshal a message is not told apart from a refusal by the database; both leave the writes made before.
- Pipeline.StepKeepsInv: the create-or-update of a cluster row is one step; two requests for one new cluster that race between its read and its write are left to the unique index of the table.
- Payloads.FlattenRequestPayload: the order of fields is that of insertion, without JavaScript's rule that integer-like keys come first; NaN is not among the numbers.
- Go maps and the library sort: map iteration is an arbitrary choice, and the sort is an insertion sort with the same result.
- Authentication, RBAC, the gRPC and HTTP layers and the wire format: identities are inputs, and unmarshalling inverts marshalling or fails.
- GORM and SQL: tables are a map of rows and append-only sequences; migrations, soft deletion and transactions are not modelled, and `GetClusterSnapshotByID` is not used by the code modelled.
- Kubernetes and Prometheus clients, leader election, tickers and logging: lists and samples are inputs, and when a collector runs is up to the interleaving.
- Timestamps near the limits of int64 and `time.Now()`: times are unbounded integers, and the current time is a parameter.
- `fetchReq`, the notify sink, `TextDecoderStream` and the encoding of URL parameters: plain plumbing around what is modelled.
