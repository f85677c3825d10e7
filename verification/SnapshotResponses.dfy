/** What every response of `ListClusterSnapshots` satisfies, for all tables, tenants and windows. */
module SnapshotResponses {
  import Seqs
  import Folds
  import opened Ordering
  import opened Grouping
  import GroupTotals
  import Figures
  import opened Telemetry
  import opened GoInt
  import opened TimeWindow
  import opened Store
  import opened SnapshotValues
  import opened SnapshotTheorems
  import opened SnapshotHandler

  lemma WindowTimes<M(!new)>(hs: seq<History<M>>, ids: set<string>, start: Time, end: Time, h: History<M>)
    requires h in Window(hs, ids, start, end)
    ensures h in hs && h.clusterID in ids && start <= h.createdAt < end
  {
  }

  /** Datapoint `i` is computed from the tenant's histories created in hour `i`, and these hourly sets together
      are exactly the tenant's histories in the window, each counted once. */
  lemma HoursPartitionTheWindow(t: Tables, tenantID: string, start: Time, end: Time)
    requires Aligned(start) && Aligned(end) && start <= end
    ensures var hs := TenantSnapshots(t, tenantID, start, end);
            SlotUnion(hs, start, (end - start) / HOUR) == multiset(hs)
  {
    var hs := TenantSnapshots(t, tenantID, start, end);
    forall h | h in hs ensures start <= h.createdAt < end {
      WindowTimes(t.snapshots, Names(t.rows, tenantID).Keys, start, end, h);
    }
    BucketsPartition(hs, start, end);
  }

  /** The name map covers every fetched history: no tables make a handler fail for want of a cluster name. */
  lemma NamesAreNeverMissing(t: Tables, tenantID: string, filter: Option<RequestFilter>, groupBy: GroupBy, now: Time,
                             id: string)
    ensures !Rejects(t, tenantID, filter, groupBy, now, NoClusterName(id))
  {
    var names := Names(t.rows, tenantID);
    var window := GetStartEndTime(filter, now, WEEK);
    if window.Success? {
      var hs := TenantSnapshots(t, tenantID, window.value.0, window.value.1);
      forall h | h in hs ensures HistoryError(h, groupBy, names) != Some(NoClusterName(id)) {
        WindowTimes(t.snapshots, names.Keys, window.value.0, window.value.1, h);
      }
    }
  }

  lemma SlotKeysCovered(hs: seq<History<Snapshot>>, groupBy: GroupBy, names: map<string, string>, t: Time)
    ensures Keys(RowsOf(Slot(hs, t), groupBy, names)) <= Keys(RowsOf(hs, groupBy, names))
  {
    var all, slot: Rows := RowsOf(hs, groupBy, names), RowsOf(Slot(hs, t), groupBy, names);
    forall k | k in Keys(slot) ensures k in Keys(all) {
      var i, j :| 0 <= i < |slot| && 0 <= j < |slot[i]| && slot[i][j].0 == k;
      assert Slot(hs, t)[i] in hs;
      var i' :| 0 <= i' < |hs| && hs[i'] == Slot(hs, t)[i];
      assert all[i'] == slot[i];
    }
  }

  /** Grouped responses are rectangular and complete: every datapoint lists one and the same strictly ascending key
      list, in its order, and every key of every hour is on it. */
  lemma GroupedResponsesAreRectangular(t: Tables, tenantID: string, groupBy: GroupBy, start: Time, end: Time, i: nat)
    requires !groupBy.Unspecified? && start <= end && i < (end - start) / HOUR
    ensures var hs := TenantSnapshots(t, tenantID, start, end);
            var names := Names(t.rows, tenantID);
            var gvals := GroupingValues(hs, groupBy, names);
            var dp := ResponseOf(t, tenantID, groupBy, start, end).datapoints[i];
            && Ascending(StringLess, gvals)
            && dp.timestamp == Unix(start + i * HOUR)
            && Seqs.Map((v: Value) => v.groupingValue, dp.values) == gvals
            && Keys(RowsOf(Slot(hs, start + i * HOUR), groupBy, names)) <= Elements(gvals)
  {
    hide RowsOf, Keys, Slot, Reported, StringLess;
    StringOrder();
    SlotKeysCovered(TenantSnapshots(t, tenantID, start, end), groupBy, Names(t.rows, tenantID), start + i * HOUR);
  }

  /** Datapoint by datapoint, the ungrouped response is the int32 sum of the response grouped by cluster. */
  lemma UngroupedResponseSumsClusters(t: Tables, tenantID: string, start: Time, end: Time, i: nat)
    requires start <= end && i < (end - start) / HOUR
    ensures var grouped := ResponseOf(t, tenantID, ByCluster, start, end).datapoints[i].values;
            ResponseOf(t, tenantID, Unspecified, start, end).datapoints[i].values
            == [Value("", Figures.WrapValue(SumOfValues(grouped)))]
  {
    hide *;
    var hs, names := TenantSnapshots(t, tenantID, start, end), Names(t.rows, tenantID);
    var slot := Slot(hs, start + i * HOUR);
    var gvals := GroupingValues(hs, ByCluster, names);
    DatapointValues(t, tenantID, Unspecified, start, end, i);
    DatapointValues(t, tenantID, ByCluster, start, end, i);
    SameGroupingValues(hs, names);
    SlotKeysCovered(hs, ByCluster, names, start + i * HOUR);
    GroupingValuesCover(hs, ByCluster, names);
    UngroupedIsSumOfClusters(slot, names, gvals);
  }

  lemma DatapointValues(t: Tables, tenantID: string, groupBy: GroupBy, start: Time, end: Time, i: nat)
    requires start <= end && i < (end - start) / HOUR
    ensures var hs, names := TenantSnapshots(t, tenantID, start, end), Names(t.rows, tenantID);
            i < |ResponseOf(t, tenantID, groupBy, start, end).datapoints|
            && ResponseOf(t, tenantID, groupBy, start, end).datapoints[i].values
               == Values(RowsOf(Slot(hs, start + i * HOUR), groupBy, names), groupBy,
                         GroupingValues(hs, groupBy, names))
  {
    hide Values, RowsOf, GroupingValues, Slot, TenantSnapshots, Names;
  }

  lemma SameGroupingValues(hs: seq<History<Snapshot>>, names: map<string, string>)
    ensures GroupingValues(hs, Unspecified, names) == GroupingValues(hs, ByCluster, names)
  {
    SameRows(hs, names);
    hide RowsOf, Keys;
  }

  lemma GroupingValuesCover(hs: seq<History<Snapshot>>, groupBy: GroupBy, names: map<string, string>)
    ensures Distinct(GroupingValues(hs, groupBy, names))
    ensures Elements(GroupingValues(hs, groupBy, names)) == Keys(RowsOf(hs, groupBy, names))
  {
    hide RowsOf, Keys, StringLess;
    StringOrder();
    AscendingDistinct(StringLess, GroupingValues(hs, groupBy, names));
  }

  /** The response is a function of the tenant's own rows and of their histories in the window, whatever the order
      of the tables and whatever other tenants store. */
  lemma ResponseDependsOnTenantOnly(t: Tables, t': Tables, tenantID: string, groupBy: GroupBy, start: Time, end: Time)
    requires start <= end
    requires Names(t.rows, tenantID) == Names(t'.rows, tenantID)
    requires multiset(TenantSnapshots(t, tenantID, start, end)) == multiset(TenantSnapshots(t', tenantID, start, end))
    ensures ResponseOf(t, tenantID, groupBy, start, end) == ResponseOf(t', tenantID, groupBy, start, end)
  {
    var names := Names(t.rows, tenantID);
    var hs, hs' := TenantSnapshots(t, tenantID, start, end), TenantSnapshots(t', tenantID, start, end);
    hide RowsOf, Values, Slot, Keys, Names, TenantSnapshots;
    forall u ensures DatapointOf(hs, groupBy, names, u) == DatapointOf(hs', groupBy, names, u) {
      SlotsSame(hs, hs', groupBy, names, u, GroupingValues(hs, groupBy, names));
    }
    hide DatapointOf;
    var n := (end - start) / HOUR;
    assert Datapoints(hs, groupBy, names, start, n) == Datapoints(hs', groupBy, names, start, n);
  }

  // ----- range, occupancy and replication

  ghost function RowsOfHour(hs: seq<History<Snapshot>>, groupBy: GroupBy, names: map<string, string>, start: Time,
                            i: nat): Rows
  {
    RowsOf(Slot(hs, start + i * HOUR), groupBy, names)
  }

  /** The rows behind datapoint `i`. */
  ghost function HourRows(t: Tables, tenantID: string, groupBy: GroupBy, start: Time, end: Time, i: nat): Rows
  {
    RowsOfHour(TenantSnapshots(t, tenantID, start, end), groupBy, Names(t.rows, tenantID), start, i)
  }

  lemma HourValues(t: Tables, tenantID: string, groupBy: GroupBy, start: Time, end: Time, i: nat)
    requires start <= end && i < |ResponseOf(t, tenantID, groupBy, start, end).datapoints|
    ensures ResponseOf(t, tenantID, groupBy, start, end).datapoints[i].values
            == Values(HourRows(t, tenantID, groupBy, start, end, i), groupBy,
                      GroupingValues(TenantSnapshots(t, tenantID, start, end), groupBy, Names(t.rows, tenantID)))
  {
    hide Values, RowsOf, GroupingValues, Slot, TenantSnapshots, Names;
  }

  lemma GroupedValue(rows: Rows, groupBy: GroupBy, gvals: seq<string>, v: Value)
    requires !groupBy.Unspecified? && v in Values(rows, groupBy, gvals)
    ensures v.figures == Reported(rows, v.groupingValue)
  {
    hide Reported;
  }

  /** Every grouped value of every datapoint lies between the least and the greatest amount that one history of its
      hour contributes to its group. */
  lemma ResponsesAreInRange(t: Tables, tenantID: string, groupBy: GroupBy, start: Time, end: Time, i: nat, v: Value,
                            lo: Figures.Figures, hi: Figures.Figures)
    requires !groupBy.Unspecified? && start <= end
    requires i < |ResponseOf(t, tenantID, groupBy, start, end).datapoints|
    requires v in ResponseOf(t, tenantID, groupBy, start, end).datapoints[i].values
    requires var (rows, k) := (HourRows(t, tenantID, groupBy, start, end, i), v.groupingValue);
             && k in Keys(rows) && Figures.TotalsFit(GroupTotals.Total(Figures.FIGURES, rows, k))
             && Bounds(rows, k, lo, hi)
    requires -TWO_31 <= Quot(lo.memory, Figures.GB) && Quot(hi.memory, Figures.GB) < TWO_31
    ensures Figures.AtMost(lo.(memory := Quot(lo.memory, Figures.GB)), v.figures)
    ensures Figures.AtMost(v.figures, hi.(memory := Quot(hi.memory, Figures.GB)))
  {
    hide HourRows, Keys, Bounds, Figures.TotalsFit, Values, ResponseOf, Reported, GroupTotals.Total;
    var rows := HourRows(t, tenantID, groupBy, start, end, i);
    HourValues(t, tenantID, groupBy, start, end, i);
    GroupedValue(rows, groupBy,
                 GroupingValues(TenantSnapshots(t, tenantID, start, end), groupBy, Names(t.rows, tenantID)), v);
    AverageInRange(rows, v.groupingValue, lo, hi);
  }

  /** If no node of an hour is occupied beyond its capacity, no value of its datapoint is, in any grouping mode. */
  lemma ResponsesKeepOccupancyWithinCapacity(t: Tables, tenantID: string, groupBy: GroupBy, start: Time, end: Time,
                                             i: nat, v: Value)
    requires start <= end && i < |ResponseOf(t, tenantID, groupBy, start, end).datapoints|
    requires v in ResponseOf(t, tenantID, groupBy, start, end).datapoints[i].values
    requires NodesWithin(Slot(TenantSnapshots(t, tenantID, start, end), start + i * HOUR))
    requires var rows := HourRows(t, tenantID, groupBy, start, end, i);
             && (forall k :: GpusInRange(GroupTotals.Total(Figures.FIGURES, rows, k)))
             && (groupBy.Unspecified? ==> GpusInRange(Folds.SumOver(Figures.FIGURES, AllReported(rows), Keys(rows))))
    ensures v.figures.occupied <= v.figures.gpus
  {
    HourValues(t, tenantID, groupBy, start, end, i);
    assert HourRows(t, tenantID, groupBy, start, end, i)
        == RowsOf(Slot(TenantSnapshots(t, tenantID, start, end), start + i * HOUR), groupBy, Names(t.rows, tenantID));
    hide *;
    OccupancyWithinCapacity(Slot(TenantSnapshots(t, tenantID, start, end), start + i * HOUR), groupBy,
                            Names(t.rows, tenantID),
                            GroupingValues(TenantSnapshots(t, tenantID, start, end), groupBy, Names(t.rows, tenantID)),
                            v);
  }

  lemma HourRowsAre(hs: seq<History<Snapshot>>, groupBy: GroupBy, names: map<string, string>, start: Time, i: nat)
    ensures RowsOfHour(hs, groupBy, names, start, i) == RowsOf(Slot(hs, start + i * HOUR), groupBy, names)
  {
  }

  /** The values of a datapoint from `n` copies of each history of its hour, in any order. */
  lemma HourOfCopies(hs: seq<History<Snapshot>>, hs': seq<History<Snapshot>>, n: nat, groupBy: GroupBy,
                     names: map<string, string>, start: Time, i: nat, gvals: seq<string>)
    requires n >= 1 && multiset(hs') == multiset(Seqs.Copies(hs, n))
    requires ReplicasFit(RowsOfHour(hs, groupBy, names, start, i), n)
    ensures Values(RowsOf(Slot(hs', start + i * HOUR), groupBy, names), groupBy, gvals)
            == Values(RowsOf(Slot(hs, start + i * HOUR), groupBy, names), groupBy, gvals)
  {
    hide *;
    var u := start + i * HOUR;
    HourRowsAre(hs, groupBy, names, start, i);
    SlotPermutes(hs', Seqs.Copies(hs, n), u);
    SlotOfCopies(hs, n, u);
    SameUpToOrderOfHistories(Slot(hs', u), Seqs.Copies(Slot(hs, u), n));
    ReplicationInvariant(Slot(hs, u), Slot(hs', u), n, groupBy, names, gvals);
  }

  lemma KeysOfPermutedCopies(hs: seq<History<Snapshot>>, hs': seq<History<Snapshot>>, n: nat, groupBy: GroupBy,
                             names: map<string, string>)
    requires n >= 1 && multiset(hs') == multiset(Seqs.Copies(hs, n))
    ensures GroupingValues(hs', groupBy, names) == GroupingValues(hs, groupBy, names)
  {
    SlotsSame(hs', Seqs.Copies(hs, n), groupBy, names, 0, []);
    RowsOfCopies(hs, n, groupBy, names);
    KeysOfCopies(RowsOf(hs, groupBy, names), n);
    hide RowsOf, Keys, Seqs.Copies;
  }

  lemma {:induction false} DatapointsOfCopies(hs: seq<History<Snapshot>>, hs': seq<History<Snapshot>>, n: nat,
                                              groupBy: GroupBy, names: map<string, string>, start: Time, m: nat)
    requires n >= 1 && multiset(hs') == multiset(Seqs.Copies(hs, n))
    requires forall i: nat :: i < m ==> ReplicasFit(RowsOfHour(hs, groupBy, names, start, i), n)
    ensures Datapoints(hs', groupBy, names, start, m) == Datapoints(hs, groupBy, names, start, m)
    decreases m
  {
    hide *;
    if m == 0 {
      NoDatapoints(hs, groupBy, names, start);
      NoDatapoints(hs', groupBy, names, start);
    } else {
      DatapointsOfCopies(hs, hs', n, groupBy, names, start, m - 1);
      NextDatapoint(hs, hs, groupBy, names, start, m - 1);
      NextDatapoint(hs', hs', groupBy, names, start, m - 1);
      KeysOfPermutedCopies(hs, hs', n, groupBy, names);
      HourOfCopies(hs, hs', n, groupBy, names, start, m - 1, GroupingValues(hs, groupBy, names));
    }
  }

  /** If a tenant's histories in the window are there `n` times each, in any order, the response is the same, as long
      as the larger totals of every hour still fit their Go types. */
  lemma ResponseOfCopies(t: Tables, t': Tables, tenantID: string, groupBy: GroupBy, start: Time, end: Time, n: nat)
    requires start <= end && n >= 1
    requires Names(t.rows, tenantID) == Names(t'.rows, tenantID)
    requires multiset(TenantSnapshots(t', tenantID, start, end))
             == multiset(Seqs.Copies(TenantSnapshots(t, tenantID, start, end), n))
    requires forall i: nat :: i < (end - start) / HOUR ==>
               ReplicasFit(HourRows(t, tenantID, groupBy, start, end, i), n)
    ensures ResponseOf(t', tenantID, groupBy, start, end) == ResponseOf(t, tenantID, groupBy, start, end)
  {
    hide RowsOfHour, Names, TenantSnapshots, ReplicasFit, Seqs.Copies, Datapoints;
    var hs, hs' := TenantSnapshots(t, tenantID, start, end), TenantSnapshots(t', tenantID, start, end);
    var m := (end - start) / HOUR;
    forall i: nat | i < m ensures ReplicasFit(RowsOfHour(hs, groupBy, Names(t.rows, tenantID), start, i), n) {
      assert ReplicasFit(HourRows(t, tenantID, groupBy, start, end, i), n);
    }
    DatapointsOfCopies(hs, hs', n, groupBy, Names(t.rows, tenantID), start, m);
  }

  // ----- every stored node is counted

  /** The key that a node of a named cluster is grouped under. */
  function KeyOf(groupBy: GroupBy, clusterName: string, n: SnapshotNode): string
  {
    if groupBy.ByProduct? then (if n.product.None? then "unknown" else n.product.value) else clusterName
  }

  /** A node of a snapshot stored at `at` is counted in the tenant's response: its figures are among those behind
      its key in the hour of `at`; that key has a value in a grouped datapoint of that hour, and in the ungrouped one
      it is among the groups that make up the single value; and the totals of all listed keys add up to the totals of
      exactly the nodes stored in that hour, this one included. */
  ghost predicate NodeCounted(t: Tables, tenantID: string, groupBy: GroupBy, start: Time, end: Time, id: string,
                              at: Time, n: SnapshotNode)
    requires start <= at < end && id in t.rows
  {
    var (hs, names, i) := (TenantSnapshots(t, tenantID, start, end), Names(t.rows, tenantID), HourOf(start, at));
    var slot := Slot(hs, start + i * HOUR);
    var (rows, gvals, key) := (RowsOf(slot, groupBy, names), GroupingValues(hs, groupBy, names),
                               KeyOf(groupBy, t.rows[id].name, n));
    var dps := ResponseOf(t, tenantID, groupBy, start, end).datapoints;
    && FiguresOf(n) in Members(rows, key) && key in Keys(rows)
    && i < |dps|
    && (!groupBy.Unspecified? ==> Value(key, Reported(rows, key)) in dps[i].values)
    && (groupBy.Unspecified? ==>
          dps[i].values
          == [Value("", Figures.WrapValue(Folds.SumOver(Figures.FIGURES, AllReported(rows), Keys(rows))))])
    && n in AllNodes(slot)
    && GroupTotals.SumOfTotals(Figures.FIGURES, rows, gvals)
       == Folds.Sum(Figures.FIGURES, Seqs.Map(FiguresOf, AllNodes(slot)))
  }

  lemma NodeEntry(hs: seq<History<Snapshot>>, groupBy: GroupBy, names: map<string, string>, h: History<Snapshot>,
                  n: SnapshotNode)
    requires h in hs && h.message.Encoded? && n in h.message.value.nodes
    ensures var ((k, p), rows) := (Entry(h.clusterID, n, groupBy, names), RowsOf(hs, groupBy, names));
            p in Members(rows, k) && k in Keys(rows)
  {
    var (k, p) := Entry(h.clusterID, n, groupBy, names);
    var i :| 0 <= i < |hs| && hs[i] == h;
    var j :| 0 <= j < |h.message.value.nodes| && h.message.value.nodes[j] == n;
    var rows, row := RowsOf(hs, groupBy, names), RowOf(h, groupBy, names);
    assert rows[i] == row && row[j] == (k, p);
    MemberOfRows(rows, row, k, p);
    assert rows[i][j].0 == k;
  }

  lemma {:induction false} NodeAmongAll(hs: seq<History<Snapshot>>, h: History<Snapshot>, n: SnapshotNode)
    requires h in hs && h.message.Encoded? && n in h.message.value.nodes
    ensures n in AllNodes(hs)
    decreases |hs|
  {
    if h != hs[|hs| - 1] {
      NodeAmongAll(hs[..|hs| - 1], h, n);
    }
  }

  lemma ValueListed(rows: Rows, groupBy: GroupBy, gvals: seq<string>, key: string)
    requires !groupBy.Unspecified? && key in Elements(gvals)
    ensures Value(key, Reported(rows, key)) in Values(rows, groupBy, gvals)
  {
    hide Reported;
    var j :| 0 <= j < |gvals| && gvals[j] == key;
    assert Values(rows, groupBy, gvals)[j] == Value(key, Reported(rows, key));
  }

  /** Every node of every stored history of the tenant in the window is counted. */
  lemma StoredNodeIsCounted(t: Tables, tenantID: string, groupBy: GroupBy, start: Time, end: Time, h: History<Snapshot>,
                            n: SnapshotNode)
    requires !groupBy.Unknown? && Aligned(start) && Aligned(end) && start <= h.createdAt < end
    requires h in t.snapshots && h.message.Encoded? && n in h.message.value.nodes
    requires h.clusterID in t.rows && t.rows[h.clusterID].tenantID == tenantID
    ensures NodeCounted(t, tenantID, groupBy, start, end, h.clusterID, h.createdAt, n)
  {
    hide Slot, RowsOf, Keys, GroupingValues, ResponseOf, TenantSnapshots, Names, Values, Reported, Members, AllNodes,
      Entry, FiguresOf, KeyOf, Elements, Distinct, Folds.Sum, GroupTotals.SumOfTotals, HourOf, Aligned, Seqs.Map,
      Figures.FIGURES;
    var hs, names := TenantSnapshots(t, tenantID, start, end), Names(t.rows, tenantID);
    var i := HourOf(start, h.createdAt);
    var u := start + i * HOUR;
    var slot, gvals := Slot(hs, u), GroupingValues(hs, groupBy, names);
    var key := KeyOf(groupBy, t.rows[h.clusterID].name, n);
    HourOfContains(start, end, h.createdAt);
    InItsHour(t, tenantID, groupBy, start, end, h, n);
    DatapointValues(t, tenantID, groupBy, start, end, i);
    NodeEntry(slot, groupBy, names, h, n);
    SlotKeysCovered(hs, groupBy, names, u);
    GroupingValuesCover(hs, groupBy, names);
    NodeAmongAll(slot, h, n);
    NodesConserved(slot, groupBy, names, gvals);
    if !groupBy.Unspecified? {
      ValueListed(RowsOf(slot, groupBy, names), groupBy, gvals, key);
    } else {
      SingleValue(RowsOf(slot, groupBy, names), gvals);
    }
  }

  lemma SingleValue(rows: Rows, gvals: seq<string>)
    ensures Values(rows, Unspecified, gvals)
            == [Value("", Figures.WrapValue(Folds.SumOver(Figures.FIGURES, AllReported(rows), Keys(rows))))]
  {
  }

  lemma InItsHour(t: Tables, tenantID: string, groupBy: GroupBy, start: Time, end: Time, h: History<Snapshot>,
                  n: SnapshotNode)
    requires !groupBy.Unknown? && Aligned(start) && Aligned(end) && start <= h.createdAt < end
    requires h in t.snapshots && h.clusterID in t.rows && t.rows[h.clusterID].tenantID == tenantID
    ensures h in Slot(TenantSnapshots(t, tenantID, start, end), start + HourOf(start, h.createdAt) * HOUR)
    ensures Entry(h.clusterID, n, groupBy, Names(t.rows, tenantID))
            == (KeyOf(groupBy, t.rows[h.clusterID].name, n), FiguresOf(n))
  {
    hide FiguresOf, HourOf;
    HourOfContains(start, end, h.createdAt);
  }
}
