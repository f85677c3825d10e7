/** What every response of `ListGpuUsages` satisfies, for all tables, tenants and windows. */
module GpuResponses {
  import GoInt
  import Seqs
  import Folds
  import Ordering
  import opened Grouping
  import GroupTotals
  import opened Telemetry
  import opened TimeWindow
  import opened Store
  import opened GpuValues
  import opened GpuTheorems
  import opened GpuHandler

  lemma InWindow(t: Tables, tenantID: string, start: Time, end: Time, h: History<GpuTelemetry>)
    ensures h in TenantGpus(t, tenantID, start, end)
            <==> h in t.gpus && h.clusterID in Names(t.rows, tenantID) && start <= h.createdAt < end
  {
  }

  /** Datapoint `i` is computed from the tenant's histories created in hour `i`, and these hourly sets together
      are exactly the tenant's histories in the window, each counted once. */
  lemma HoursPartitionTheWindow(t: Tables, tenantID: string, start: Time, end: Time)
    requires Aligned(start) && Aligned(end) && start <= end
    ensures SlotUnion(TenantGpus(t, tenantID, start, end), start, (end - start) / HOUR)
            == multiset(TenantGpus(t, tenantID, start, end))
  {
    var hs := TenantGpus(t, tenantID, start, end);
    forall h | h in hs ensures start <= h.createdAt < end {
      InWindow(t, tenantID, start, end, h);
    }
    hide TenantGpus;
    BucketsPartition(hs, start, end);
  }

  /** The name map covers every fetched history: no tables make the handler fail for want of a cluster name. */
  lemma NamesAreNeverMissing(t: Tables, tenantID: string, filter: Option<RequestFilter>, now: Time, id: string)
    ensures !Rejects(t, tenantID, filter, now, NoClusterName(id))
  {
    var names := Names(t.rows, tenantID);
    var window := GetStartEndTime(filter, now, WEEK);
    if window.Success? {
      var hs := TenantGpus(t, tenantID, window.value.0, window.value.1);
      forall h | h in hs ensures ListError(h, names) != Some(NoClusterName(id)) {
        InWindow(t, tenantID, window.value.0, window.value.1, h);
      }
    }
  }

  lemma DatapointValues(t: Tables, tenantID: string, start: Time, end: Time, i: nat)
    requires start <= end && i < (end - start) / HOUR
    ensures var hs, names := TenantGpus(t, tenantID, start, end), Names(t.rows, tenantID);
            && |ResponseOf(t, tenantID, start, end)| == (end - start) / HOUR
            && ResponseOf(t, tenantID, start, end)[i]
               == Datapoint(Unix(start + i * HOUR),
                            Values(RowsOf(Slot(hs, start + i * HOUR), names), AllNodes(hs, names)))
  {
    hide Values, RowsOf, AllNodes, Slot, TenantGpus, Names;
  }

  lemma SlotKeysCovered(hs: seq<History<GpuTelemetry>>, names: map<string, string>, t: Time)
    ensures Keys(RowsOf(Slot(hs, t), names)) <= Keys(RowsOf(hs, names))
  {
    var all, slot: Rows := RowsOf(hs, names), RowsOf(Slot(hs, t), names);
    forall k | k in Keys(slot) ensures k in Keys(all) {
      var i, j :| 0 <= i < |slot| && 0 <= j < |slot[i]| && slot[i][j].0 == k;
      assert Slot(hs, t)[i] in hs;
      var i' :| 0 <= i' < |hs| && hs[i'] == Slot(hs, t)[i];
      assert all[i'] == slot[i];
    }
  }

  lemma AllNodesCover(hs: seq<History<GpuTelemetry>>, names: map<string, string>)
    ensures Ordering.Ascending(ClusterNodeLess, AllNodes(hs, names))
    ensures Ordering.Elements(AllNodes(hs, names)) == Keys(RowsOf(hs, names))
  {
    hide RowsOf, Keys, ClusterNodeLess;
    ClusterNodeOrder();
  }

  lemma ValuesList(rows: Rows, cns: seq<ClusterNode>)
    ensures Seqs.Map((v: GpuValue) => v.node, Values(rows, cns)) == cns
  {
  }

  /** Responses are rectangular and complete: every datapoint lists one and the same strictly ascending list of
      cluster nodes, in its order, and every node of every hour is on it. */
  lemma ResponsesAreRectangular(t: Tables, tenantID: string, start: Time, end: Time, i: nat)
    requires start <= end && i < (end - start) / HOUR
    ensures var hs, names := TenantGpus(t, tenantID, start, end), Names(t.rows, tenantID);
            var dp := ResponseOf(t, tenantID, start, end)[i];
            && Ordering.Ascending(ClusterNodeLess, AllNodes(hs, names))
            && dp.timestamp == Unix(start + i * HOUR)
            && Seqs.Map((v: GpuValue) => v.node, dp.values) == AllNodes(hs, names)
            && Keys(RowsOf(Slot(hs, start + i * HOUR), names)) <= Ordering.Elements(AllNodes(hs, names))
  {
    hide RowsOf, Keys, Slot, Reported, ClusterNodeLess, Values, AllNodes, ResponseOf, TenantGpus, Names;
    var hs, names := TenantGpus(t, tenantID, start, end), Names(t.rows, tenantID);
    DatapointValues(t, tenantID, start, end, i);
    AllNodesCover(hs, names);
    SlotKeysCovered(hs, names, start + i * HOUR);
    ValuesList(RowsOf(Slot(hs, start + i * HOUR), names), AllNodes(hs, names));
  }

  /** In every datapoint the totals behind the values add up, in the monoid of usages, to those of all nodes of the
      hour: each node contributes to exactly one value. */
  lemma EveryNodeCountsOnce(hs: seq<History<GpuTelemetry>>, names: map<string, string>, t: Time)
    ensures GroupTotals.SumOfTotals(USAGES, RowsOf(Slot(hs, t), names), AllNodes(hs, names))
            == GroupTotals.GrandTotal(USAGES, RowsOf(Slot(hs, t), names))
  {
    hide *;
    ClusterNodeOrder();
    UsagesLawful();
    SlotKeysCovered(hs, names, t);
    AllNodesCover(hs, names);
    Ordering.AscendingDistinct(ClusterNodeLess, AllNodes(hs, names));
    GroupTotals.GroupsConserve(USAGES, RowsOf(Slot(hs, t), names), AllNodes(hs, names));
  }

  /** The response is a function of the tenant's own rows and of their histories in the window, whatever the order
      of the tables and whatever other tenants store. */
  lemma ResponseDependsOnTenantOnly(t: Tables, t': Tables, tenantID: string, start: Time, end: Time)
    requires start <= end
    requires Names(t.rows, tenantID) == Names(t'.rows, tenantID)
    requires multiset(TenantGpus(t, tenantID, start, end)) == multiset(TenantGpus(t', tenantID, start, end))
    ensures ResponseOf(t, tenantID, start, end) == ResponseOf(t', tenantID, start, end)
  {
    var names := Names(t.rows, tenantID);
    var hs, hs' := TenantGpus(t, tenantID, start, end), TenantGpus(t', tenantID, start, end);
    hide RowsOf, Values, Slot, Keys, Names, TenantGpus;
    forall u ensures DatapointOf(hs, names, u) == DatapointOf(hs', names, u) {
      SlotsSame(hs, hs', names, u, AllNodes(hs, names));
    }
    hide DatapointOf;
    var n := (end - start) / HOUR;
    assert Datapoints(hs, names, start, n) == Datapoints(hs', names, start, n);
  }

  // ----- replication

  /** All memory sums fit an int64, also when every history is there `n` times. */
  ghost predicate ReplicasFit(rows: Rows, n: nat)
  {
    forall cn ::
      var s := GroupTotals.Total(USAGES, rows, cn).sumMemory; GoInt.Wrap64(s) == s && GoInt.Wrap64(n * s) == n * s
  }

  ghost function RowsOfHour(hs: seq<History<GpuTelemetry>>, names: map<string, string>, start: Time, i: nat): Rows
  {
    RowsOf(Slot(hs, start + i * HOUR), names)
  }

  /** The rows behind datapoint `i`. */
  ghost function HourRows(t: Tables, tenantID: string, start: Time, end: Time, i: nat): Rows
  {
    RowsOfHour(TenantGpus(t, tenantID, start, end), Names(t.rows, tenantID), start, i)
  }

  /** The values of a datapoint from `n` copies of each history of its hour, in any order. */
  lemma HourOfCopies(hs: seq<History<GpuTelemetry>>, hs': seq<History<GpuTelemetry>>, n: nat,
                     names: map<string, string>, start: Time, i: nat, cns: seq<ClusterNode>)
    requires n >= 1 && multiset(hs') == multiset(Seqs.Copies(hs, n))
    requires ReplicasFit(RowsOfHour(hs, names, start, i), n)
    ensures Values(RowsOf(Slot(hs', start + i * HOUR), names), cns)
            == Values(RowsOf(Slot(hs, start + i * HOUR), names), cns)
  {
    var u := start + i * HOUR;
    assert forall cn :: var t := GroupTotals.Total(USAGES, RowsOf(Slot(hs, u), names), cn);
             GoInt.Wrap64(t.sumMemory) == t.sumMemory && GoInt.Wrap64(n * t.sumMemory) == n * t.sumMemory by {
      hide GoInt.Wrap64, GroupTotals.Total, RowsOf, Slot;
    }
    hide *;
    SlotsSame(hs', Seqs.Copies(hs, n), names, u, cns);
    SlotOfCopies(hs, n, u);
    ValuesReplicate(Slot(hs, u), n, names, cns);
  }

  lemma NodesOfPermutedCopies(hs: seq<History<GpuTelemetry>>, hs': seq<History<GpuTelemetry>>, n: nat,
                              names: map<string, string>)
    requires n >= 1 && multiset(hs') == multiset(Seqs.Copies(hs, n))
    ensures AllNodes(hs', names) == AllNodes(hs, names)
  {
    SlotsSame(hs', Seqs.Copies(hs, n), names, 0, []);
    RowsOfCopies(hs, n, names);
    KeysOfCopies(RowsOf(hs, names), n);
    hide RowsOf, Keys, Seqs.Copies;
  }

  lemma KeysOfCopies(rows: Rows, n: nat)
    requires n >= 1
    ensures Keys(Seqs.Copies(rows, n)) == Keys(rows)
  {
    hide Keys, Seqs.Copies, Count;
    forall k ensures k in Keys(Seqs.Copies(rows, n)) <==> k in Keys(rows) {
      CopiesCount(rows, n, k);
      Present(rows, k);
      Present(Seqs.Copies(rows, n), k);
    }
  }

  lemma {:induction false} DatapointsOfCopies(hs: seq<History<GpuTelemetry>>, hs': seq<History<GpuTelemetry>>, n: nat,
                                              names: map<string, string>, start: Time, m: nat)
    requires n >= 1 && multiset(hs') == multiset(Seqs.Copies(hs, n))
    requires forall i: nat :: i < m ==> ReplicasFit(RowsOfHour(hs, names, start, i), n)
    ensures Datapoints(hs', names, start, m) == Datapoints(hs, names, start, m)
    decreases m
  {
    hide *;
    if m == 0 {
      NoDatapoints(hs, names, start);
      NoDatapoints(hs', names, start);
    } else {
      DatapointsOfCopies(hs, hs', n, names, start, m - 1);
      NextDatapoint(hs, hs, names, start, m - 1);
      NextDatapoint(hs', hs', names, start, m - 1);
      NodesOfPermutedCopies(hs, hs', n, names);
      HourOfCopies(hs, hs', n, names, start, m - 1, AllNodes(hs, names));
    }
  }

  /** If a tenant's histories in the window are there `n` times each, in any order, the response is the same, as long
      as the larger memory sums of every hour still fit an int64. */
  lemma ResponseOfCopies(t: Tables, t': Tables, tenantID: string, start: Time, end: Time, n: nat)
    requires start <= end && n >= 1
    requires Names(t.rows, tenantID) == Names(t'.rows, tenantID)
    requires multiset(TenantGpus(t', tenantID, start, end))
             == multiset(Seqs.Copies(TenantGpus(t, tenantID, start, end), n))
    requires forall i: nat :: i < (end - start) / HOUR ==> ReplicasFit(HourRows(t, tenantID, start, end, i), n)
    ensures ResponseOf(t', tenantID, start, end) == ResponseOf(t, tenantID, start, end)
  {
    hide RowsOfHour, Names, TenantGpus, ReplicasFit, Seqs.Copies, Datapoints;
    var hs, hs' := TenantGpus(t, tenantID, start, end), TenantGpus(t', tenantID, start, end);
    var m := (end - start) / HOUR;
    forall i: nat | i < m ensures ReplicasFit(RowsOfHour(hs, Names(t.rows, tenantID), start, i), n) {
      assert ReplicasFit(HourRows(t, tenantID, start, end, i), n);
    }
    DatapointsOfCopies(hs, hs', n, Names(t.rows, tenantID), start, m);
  }

  // ----- every stored node shows up

  lemma NodeEntry(hs: seq<History<GpuTelemetry>>, names: map<string, string>, h: History<GpuTelemetry>, n: GpuNode)
    requires h in hs && h.message.Encoded? && n in h.message.value.nodes
    ensures Entry(h.clusterID, n, names).1 in Members(RowsOf(hs, names), Entry(h.clusterID, n, names).0)
    ensures Entry(h.clusterID, n, names).0 in Keys(RowsOf(hs, names))
  {
    var (k, p) := Entry(h.clusterID, n, names);
    var i :| 0 <= i < |hs| && hs[i] == h;
    var j :| 0 <= j < |h.message.value.nodes| && h.message.value.nodes[j] == n;
    var rows, row := RowsOf(hs, names), RowOf(h, names);
    assert rows[i] == row && row[j] == (k, p);
    MemberOfRows(rows, row, k, p);
    assert rows[i][j].0 == k;
  }

  /** Every node of every stored history of the tenant in the window has a value in the datapoint of its hour,
      under the name of its cluster, with maxima no less than its own. */
  lemma StoredNodeIsReported(t: Tables, tenantID: string, start: Time, end: Time, h: History<GpuTelemetry>, n: GpuNode)
    requires Aligned(start) && Aligned(end) && start <= h.createdAt < end
    requires h in t.gpus && h.message.Encoded? && n in h.message.value.nodes
    requires h.clusterID in t.rows && t.rows[h.clusterID].tenantID == tenantID
    ensures var i := HourOf(start, h.createdAt);
            var cn := ClusterNode(t.rows[h.clusterID].name, n.name);
            && i < |ResponseOf(t, tenantID, start, end)|
            && exists v :: v in ResponseOf(t, tenantID, start, end)[i].values && v.node == cn
                           && n.maxGpuUsed <= v.maxUsed && InGB(n.maxMemoryUsed) <= v.maxMemoryGb
  {
    var hs, names := TenantGpus(t, tenantID, start, end), Names(t.rows, tenantID);
    var i := HourOf(start, h.createdAt);
    var u := start + i * HOUR;
    var slot := Slot(hs, u);
    var cn := ClusterNode(t.rows[h.clusterID].name, n.name);
    InWindow(t, tenantID, start, end, h);
    HourOfContains(start, end, h.createdAt);
    assert h in slot;
    DatapointValues(t, tenantID, start, end, i);
    assert Entry(h.clusterID, n, names) == (cn, UsageOf(n));
    hide *;
    NodeEntry(slot, names, h, n);
    SlotKeysCovered(hs, names, u);
    AllNodesCover(hs, names);
    ReportedDominates(RowsOf(slot, names), cn, n);
    ValueListed(RowsOf(slot, names), AllNodes(hs, names), cn);
  }

  lemma ValueIsReported(rows: Rows, cns: seq<ClusterNode>, v: GpuValue)
    requires v in Values(rows, cns)
    ensures v == Reported(rows, v.node)
  {
    hide GroupTotals.Total, Count;
  }

  lemma ValueListed(rows: Rows, cns: seq<ClusterNode>, cn: ClusterNode)
    requires cn in Ordering.Elements(cns)
    ensures Reported(rows, cn) in Values(rows, cns) && Reported(rows, cn).node == cn
  {
    var j :| 0 <= j < |cns| && cns[j] == cn;
    assert Values(rows, cns)[j] == Reported(rows, cn);
  }

  lemma ReportedDominates(rows: Rows, cn: ClusterNode, n: GpuNode)
    requires UsageOf(n) in Members(rows, cn)
    ensures n.maxGpuUsed <= Reported(rows, cn).maxUsed && InGB(n.maxMemoryUsed) <= Reported(rows, cn).maxMemoryGb
  {
    var t := GroupTotals.Total(USAGES, rows, cn);
    SumMaximum(Members(rows, cn), t.maxUsed, t.maxMemory);
    Present(rows, cn);
    InGBMonotone(n.maxMemoryUsed, t.maxMemory);
    hide Members, Folds.Sum, Count;
  }

  // ----- averages and maxima

  /** A message in which no node is repeated and no average exceeds its maximum. */
  ghost predicate WellFormed(g: GpuTelemetry)
  {
    && (forall i, j :: 0 <= i < j < |g.nodes| ==> g.nodes[i].name != g.nodes[j].name)
    && (forall n :: n in g.nodes ==> Consistent(UsageOf(n)))
  }

  lemma {:induction false} OfDistinct<K, P>(row: Row<K, P>, k: K)
    requires forall i, j :: 0 <= i < j < |row| ==> row[i].0 != row[j].0
    ensures |Of(row, k)| <= 1
    ensures |Of(row, k)| == 1 ==> exists i :: 0 <= i < |row| && row[i].0 == k
  {
    if row != [] {
      OfDistinct(row[..|row| - 1], k);
      OfMentions(row[..|row| - 1], k);
    }
  }

  lemma WellFormedRows(hs: seq<History<GpuTelemetry>>, names: map<string, string>, cn: ClusterNode)
    requires forall h :: h in hs && h.message.Encoded? ==> WellFormed(h.message.value)
    ensures AtMostOnce(RowsOf(hs, names), cn)
    ensures forall u :: u in Members(RowsOf(hs, names), cn) ==> Consistent(u)
  {
    var rows: Rows := RowsOf(hs, names);
    assert forall row :: row in rows ==> exists h :: h in hs && row == RowOf(h, names);
    hide *;
    forall row | row in rows ensures |Of(row, cn)| <= 1 {
      var h :| h in hs && row == RowOf(h, names);
      WellFormedRow(h, names, cn);
    }
    assert AtMostOnce(rows, cn) by {
      OnceInEveryRow(rows, cn);
    }
    forall u | u in Members(rows, cn) ensures Consistent(u) {
      MembersComeFromRows(rows, cn, u);
      var row :| row in rows && (cn, u) in row;
      var h :| h in hs && row == RowOf(h, names);
      WellFormedRow(h, names, cn);
    }
  }

  lemma WellFormedRow(h: History<GpuTelemetry>, names: map<string, string>, cn: ClusterNode)
    requires h.message.Encoded? ==> WellFormed(h.message.value)
    ensures |Of(RowOf(h, names), cn)| <= 1
    ensures forall u :: (cn, u) in RowOf(h, names) ==> Consistent(u)
  {
    hide Consistent, UsageOf, Of;
    var row := RowOf(h, names);
    OfDistinct(row, cn);
    forall u | (cn, u) in row ensures Consistent(u) {
      var j :| 0 <= j < |row| && row[j] == (cn, u);
      assert h.message.value.nodes[j] in h.message.value.nodes;
    }
  }

  /** Memory averages that are not negative cannot underflow when they are added up. */
  lemma NoUnderflow(hs: seq<History<GpuTelemetry>>, names: map<string, string>, cn: ClusterNode)
    requires forall h, n :: h in hs && h.message.Encoded? && n in h.message.value.nodes ==> n.avgMemoryUsed >= 0
    ensures GroupTotals.Total(USAGES, RowsOf(hs, names), cn).sumMemory >= 0
  {
    hide Members, Folds.Sum, UsageOf, Folds.Closed;
    var rows: Rows := RowsOf(hs, names);
    var p := (u: Usage) => u.sumMemory >= 0;
    assert forall row :: row in rows ==> exists h :: h in hs && row == RowOf(h, names);
    hide RowsOf;
    forall u | u in Members(rows, cn) ensures p(u) {
      MembersComeFromRows(rows, cn, u);
      var row :| row in rows && (cn, u) in row;
      var h :| h in hs && row == RowOf(h, names);
      RowNonNegative(h, names, cn, u);
    }
    UsagesClosed(p);
    Folds.SumSatisfies(USAGES, p, Members(rows, cn));
  }

  lemma RowNonNegative(h: History<GpuTelemetry>, names: map<string, string>, cn: ClusterNode, u: Usage)
    requires h.message.Encoded? ==> forall n :: n in h.message.value.nodes ==> n.avgMemoryUsed >= 0
    requires (cn, u) in RowOf(h, names)
    ensures u.sumMemory >= 0
  {
    hide UsageOf;
    var row := RowOf(h, names);
    var j :| 0 <= j < |row| && row[j] == (cn, u);
    UsageMemory(h.message.value.nodes[j]);
  }

  lemma UsageMemory(n: GpuNode)
    ensures UsageOf(n).sumMemory == n.avgMemoryUsed
  {
  }

  lemma UsagesClosed(p: Usage -> bool)
    requires forall u :: p(u) <==> u.sumMemory >= 0
    ensures Folds.Closed(USAGES, p)
  {
    forall a, b ensures USAGES.plus(a, b).sumMemory == a.sumMemory + b.sumMemory {
      MergeAdds(a, b);
    }
  }

  /** If every message of the tenant in the window is well-formed, no value of the response has an average above its
      maximum, for GPUs and for memory, unless the int64 sum of the memory averages underflows. */
  lemma AveragesAtMostMaxima(t: Tables, tenantID: string, start: Time, end: Time, i: nat, v: GpuValue)
    requires start <= end && i < |ResponseOf(t, tenantID, start, end)|
    requires v in ResponseOf(t, tenantID, start, end)[i].values
    requires forall h :: h in TenantGpus(t, tenantID, start, end) && h.message.Encoded? ==> WellFormed(h.message.value)
    requires var slot := Slot(TenantGpus(t, tenantID, start, end), start + i * HOUR);
             -GoInt.TWO_63 <= GroupTotals.Total(USAGES, RowsOf(slot, Names(t.rows, tenantID)), v.node).sumMemory
    ensures v.avgUsed <= v.maxUsed && v.avgMemoryGb <= v.maxMemoryGb
  {
    hide *;
    var hs, names := TenantGpus(t, tenantID, start, end), Names(t.rows, tenantID);
    var slot := Slot(hs, start + i * HOUR);
    var rows, cns := RowsOf(slot, names), AllNodes(hs, names);
    ResponseLength(t, tenantID, start, end);
    DatapointValues(t, tenantID, start, end, i);
    SlotWithin(hs, start + i * HOUR);
    ValueIsReported(rows, cns, v);
    WellFormedRows(slot, names, v.node);
    AverageAtMostMaximum(rows, v.node);
  }

  lemma ResponseLength(t: Tables, tenantID: string, start: Time, end: Time)
    requires start <= end
    ensures |ResponseOf(t, tenantID, start, end)| == (end - start) / HOUR
  {
  }

  lemma SlotWithin(hs: seq<History<GpuTelemetry>>, t: Time)
    ensures forall h :: h in Slot(hs, t) ==> h in hs
  {
  }
}
