/** The response of `ListClusterSnapshots` in terms of the tables alone: whose histories it is made from, at which
    times, with which figures, and when it is refused. */
module SnapshotAnswers {
  import opened GoInt
  import opened Seqs
  import opened Grouping
  import Figures
  import Folds
  import Ordering
  import opened Telemetry
  import opened TimeWindow
  import opened Store
  import opened SnapshotValues
  import opened SnapshotTheorems
  import opened SnapshotHandler
  import opened SnapshotMeaning
  import SnapshotResponses

  // ----- whose histories

  /** A response is made from exactly the histories of clusters whose row belongs to the tenant, created in the
      half-open window, each as often as it is stored. */
  lemma OnlyTheTenantsHistories(t: Tables, tenantID: string, start: Time, end: Time, h: History<Snapshot>)
    ensures multiset(TenantSnapshots(t, tenantID, start, end))[h]
            == if h.clusterID in t.rows && t.rows[h.clusterID].tenantID == tenantID && start <= h.createdAt < end
               then multiset(t.snapshots)[h] else 0
    ensures h in TenantSnapshots(t, tenantID, start, end)
            <==> h in t.snapshots && h.clusterID in t.rows && t.rows[h.clusterID].tenantID == tenantID
                 && start <= h.createdAt < end
  {
    var ids := Names(t.rows, tenantID).Keys;
    FilterCounts((h: History<Snapshot>) => h.clusterID in ids && start <= h.createdAt < end, t.snapshots, h);
  }

  /** An hour's datapoint is made from exactly the histories created within 3600 seconds from its start. */
  lemma OnlyTheHoursHistories(hs: seq<History<Snapshot>>, u: Time, h: History<Snapshot>)
    ensures multiset(Slot(hs, u))[h] == if u <= h.createdAt < u + 3_600_000_000_000 then multiset(hs)[h] else 0
    ensures h in Slot(hs, u) <==> h in hs && u <= h.createdAt < u + 3_600_000_000_000
  {
    var end := u + HOUR;
    FilterCounts((h: History<Snapshot>) => u <= h.createdAt < end, hs, h);
  }

  /** The two tables have the same rows for the tenant. */
  ghost predicate SameRowsFor(t: Tables, t': Tables, tenantID: string)
  {
    && (forall id :: (id in t.rows && t.rows[id].tenantID == tenantID)
                     <==> (id in t'.rows && t'.rows[id].tenantID == tenantID))
    && (forall id :: id in t.rows && t.rows[id].tenantID == tenantID ==> t.rows[id].name == t'.rows[id].name)
  }

  lemma SameNames(t: Tables, t': Tables, tenantID: string)
    requires SameRowsFor(t, t', tenantID)
    ensures Names(t.rows, tenantID) == Names(t'.rows, tenantID)
  {
  }

  /** Tables that agree on the tenant's rows, and on the histories of those clusters in the window, give the same
      response: other tenants' rows and histories do not matter. */
  lemma OtherTenantsDoNotMatter(t: Tables, t': Tables, tenantID: string, groupBy: GroupBy, start: Time, end: Time)
    requires start <= end && SameRowsFor(t, t', tenantID)
    requires forall h: History<Snapshot> ::
               h.clusterID in t.rows && t.rows[h.clusterID].tenantID == tenantID && start <= h.createdAt < end ==>
                 multiset(t.snapshots)[h] == multiset(t'.snapshots)[h]
    ensures ResponseOf(t, tenantID, groupBy, start, end) == ResponseOf(t', tenantID, groupBy, start, end)
  {
    hide ResponseOf, TenantSnapshots, Names;
    SameNames(t, t', tenantID);
    var a, b := multiset(TenantSnapshots(t, tenantID, start, end)), multiset(TenantSnapshots(t', tenantID, start, end));
    forall h ensures a[h] == b[h] {
      OnlyTheTenantsHistories(t, tenantID, start, end, h);
      OnlyTheTenantsHistories(t', tenantID, start, end, h);
    }
    Extensional(a, b);
    SnapshotResponses.ResponseDependsOnTenantOnly(t, t', tenantID, groupBy, start, end);
  }

  // ----- times and counts

  /** There is a datapoint for every 3600 seconds of the window, stamped with its start in seconds; and the cluster
      count is the number of the tenant's rows. */
  lemma ResponseShape(t: Tables, tenantID: string, groupBy: GroupBy, start: Time, end: Time)
    requires Aligned(start) && Aligned(end) && start <= end
    ensures var r := ResponseOf(t, tenantID, groupBy, start, end);
            && |r.datapoints| * 3_600_000_000_000 == end - start
            && (forall i :: 0 <= i < |r.datapoints| ==>
                  r.datapoints[i].timestamp * 1_000_000_000 == start + i * 3_600_000_000_000)
            && r.clusterCount == Wrap32(|set id | id in t.rows && t.rows[id].tenantID == tenantID|)
  {
    var names := Names(t.rows, tenantID);
    assert names.Keys == set id | id in t.rows && t.rows[id].tenantID == tenantID;
    assert |names| == |names.Keys|;
    hide Values, RowsOf, Slot, GroupingValues, TenantSnapshots, Names;
    WholeHours(start, end);
    var n := (end - start) / HOUR;
    forall i | 0 <= i < n ensures Unix(start + i * HOUR) * 1_000_000_000 == start + i * 3_600_000_000_000 {
      WholeSeconds(start, i);
    }
  }

  lemma WholeHours(start: Time, end: Time)
    requires Aligned(start) && Aligned(end) && start <= end
    ensures (end - start) / HOUR * 3_600_000_000_000 == end - start
  {
  }

  lemma WholeSeconds(start: Time, i: nat)
    requires Aligned(start)
    ensures Unix(start + i * HOUR) * 1_000_000_000 == start + i * 3_600_000_000_000
  {
    var m := 3600 * (start / HOUR + i);
    assert start == HOUR * (start / HOUR);
    assert start + i * HOUR == 1_000_000_000 * m;
    UnixOfSeconds(m);
  }

  lemma UnixOfSeconds(m: int)
    ensures Unix(1_000_000_000 * m) == m
  {
  }

  /** Without a filter the window is the last 168 hours, up to the hour boundary nearest to the current time. */
  lemma DefaultWindow(now: Time)
    ensures var r := GetStartEndTime(None, now, WEEK);
            && r.Success?
            && r.value.1 - r.value.0 == 168 * 3_600_000_000_000
            && r.value.1 % 3_600_000_000_000 == 0
            && now - 1_800_000_000_000 < r.value.1 <= now + 1_800_000_000_000
  {
  }

  // ----- figures

  lemma TenantGroupable(t: Tables, tenantID: string, groupBy: GroupBy, start: Time, end: Time, u: Time)
    requires !groupBy.Unknown?
    ensures Groupable(Slot(TenantSnapshots(t, tenantID, start, end), u), groupBy, Names(t.rows, tenantID))
  {
    var hs := TenantSnapshots(t, tenantID, start, end);
    forall h | h in Slot(hs, u) ensures h.clusterID in Names(t.rows, tenantID) {
      OnlyTheTenantsHistories(t, tenantID, start, end, h);
    }
  }

  /** Every grouped value is that of its group's nodes in its hour: the number of nodes and the sums of their GPU
      capacities, memory capacities, occupied GPUs and pods, over the number of histories with one of the nodes. */
  lemma GroupedValuesAreOfNodes(t: Tables, tenantID: string, groupBy: GroupBy, start: Time, end: Time, i: nat, v: Value)
    requires !groupBy.Unspecified? && !groupBy.Unknown? && start <= end
    requires i < |ResponseOf(t, tenantID, groupBy, start, end).datapoints|
    requires v in ResponseOf(t, tenantID, groupBy, start, end).datapoints[i].values
    ensures var hour := Slot(TenantSnapshots(t, tenantID, start, end), start + i * HOUR);
            var names := Names(t.rows, tenantID);
            IsReported(v.figures, GroupNodes(hour, groupBy, names, v.groupingValue),
                       HistoriesWith(hour, groupBy, names, v.groupingValue))
  {
    hide *;
    var hs, names := TenantSnapshots(t, tenantID, start, end), Names(t.rows, tenantID);
    SnapshotResponses.HourValues(t, tenantID, groupBy, start, end, i);
    HourRowsAre(t, tenantID, groupBy, start, end, i);
    SnapshotResponses.GroupedValue(SnapshotResponses.HourRows(t, tenantID, groupBy, start, end, i), groupBy,
                                   GroupingValues(hs, groupBy, names), v);
    TenantGroupable(t, tenantID, groupBy, start, end, start + i * HOUR);
    ReportedIsOfNodes(Slot(hs, start + i * HOUR), groupBy, names, v.groupingValue);
  }

  lemma HourRowsAre(t: Tables, tenantID: string, groupBy: GroupBy, start: Time, end: Time, i: nat)
    ensures SnapshotResponses.HourRows(t, tenantID, groupBy, start, end, i)
            == RowsOf(Slot(TenantSnapshots(t, tenantID, start, end), start + i * HOUR), groupBy,
                      Names(t.rows, tenantID))
  {
  }

  /** Grouped datapoints list exactly the keys under which some history of the tenant in the window has a node. */
  lemma ListedKeys(t: Tables, tenantID: string, groupBy: GroupBy, start: Time, end: Time, k: string)
    requires !groupBy.Unknown?
    ensures var (hs, names) := (TenantSnapshots(t, tenantID, start, end), Names(t.rows, tenantID));
            k in Ordering.Elements(GroupingValues(hs, groupBy, names))
            <==> exists h :: h in hs && HasNodeIn(h, groupBy, names, k)
  {
    hide RowsOf, Keys, GroupingValues, HasNodeIn, TenantSnapshots, Names, Ordering.Elements;
    var hs, names := TenantSnapshots(t, tenantID, start, end), Names(t.rows, tenantID);
    WindowGroupable(t, tenantID, groupBy, start, end);
    SnapshotResponses.GroupingValuesCover(hs, groupBy, names);
    ReportedIsOfNodes(hs, groupBy, names, k);
    var with := Filter((h: History<Snapshot>) => HasNodeIn(h, groupBy, names, k), hs);
    assert forall h :: h in with <==> h in hs && HasNodeIn(h, groupBy, names, k);
    assert with != [] ==> with[0] in with;
  }

  lemma WindowGroupable(t: Tables, tenantID: string, groupBy: GroupBy, start: Time, end: Time)
    requires !groupBy.Unknown?
    ensures Groupable(TenantSnapshots(t, tenantID, start, end), groupBy, Names(t.rows, tenantID))
  {
    forall h | h in TenantSnapshots(t, tenantID, start, end) ensures h.clusterID in Names(t.rows, tenantID) {
      OnlyTheTenantsHistories(t, tenantID, start, end, h);
    }
  }

  lemma {:induction false} SumOfValuesByField(vs: seq<Value>)
    ensures var s := SumOfValues(vs);
            && s.nodes == SumBy((v: Value) => v.figures.nodes, vs)
            && s.gpus == SumBy((v: Value) => v.figures.gpus, vs)
            && s.memory == SumBy((v: Value) => v.figures.memory, vs)
            && s.occupied == SumBy((v: Value) => v.figures.occupied, vs)
            && s.pods == SumBy((v: Value) => v.figures.pods, vs)
  {
    if vs != [] {
      var init, last := vs[..|vs| - 1], vs[|vs| - 1];
      SumOfValuesByField(init);
      PlusIs(SumOfValues(init), last.figures);
      assert SumOfValues(vs) == Figures.FIGURES.plus(SumOfValues(init), last.figures);
      hide SumOfValues;
    }
  }

  /** The ungrouped response has one value a datapoint, with every field the int32 sum of that field over the values
      grouped by cluster. */
  lemma UngroupedValuesAreSums(t: Tables, tenantID: string, start: Time, end: Time, i: nat)
    requires start <= end && i < (end - start) / HOUR
    ensures var vs := ResponseOf(t, tenantID, ByCluster, start, end).datapoints[i].values;
            var single := ResponseOf(t, tenantID, Unspecified, start, end).datapoints[i].values;
            && |single| == 1 && single[0].groupingValue == ""
            && single[0].figures.nodes == Wrap32(SumBy((v: Value) => v.figures.nodes, vs))
            && single[0].figures.gpus == Wrap32(SumBy((v: Value) => v.figures.gpus, vs))
            && single[0].figures.memory == Wrap32(SumBy((v: Value) => v.figures.memory, vs))
            && single[0].figures.occupied == Wrap32(SumBy((v: Value) => v.figures.occupied, vs))
            && single[0].figures.pods == Wrap32(SumBy((v: Value) => v.figures.pods, vs))
  {
    hide ResponseOf, SumOfValues, SumBy, Wrap32;
    SnapshotResponses.DatapointValues(t, tenantID, ByCluster, start, end, i);
    SnapshotResponses.UngroupedResponseSumsClusters(t, tenantID, start, end, i);
    SumOfValuesByField(ResponseOf(t, tenantID, ByCluster, start, end).datapoints[i].values);
  }

  // ----- refusals

  /** When a request is refused for its own or the tables' sake: the tenant has no cluster, or the window is bad, or
      a history of the tenant in the window does not unmarshal, or one with nodes meets an unknown grouping. */
  lemma WhenRejected(t: Tables, tenantID: string, filter: Option<RequestFilter>, groupBy: GroupBy, now: Time, e: Error)
    ensures Rejects(t, tenantID, filter, groupBy, now, e) <==> Faulty(t, tenantID, filter, groupBy, now, e)
  {
    hide GetStartEndTime, TenantSnapshots, HistoryError, Concerns, Refuses, Names;
    var window := GetStartEndTime(filter, now, WEEK);
    NoRows(t, tenantID);
    if window.Success? {
      WhenWindowRefuses(t, tenantID, groupBy, window.value.0, window.value.1, e);
    }
  }

  /** The fault of a request or of the tables that gives the error `e`. */
  ghost predicate Faulty(t: Tables, tenantID: string, filter: Option<RequestFilter>, groupBy: GroupBy, now: Time,
                         e: Error)
  {
    var window := GetStartEndTime(filter, now, WEEK);
    if forall id :: id in t.rows ==> t.rows[id].tenantID != tenantID then e == NoClusters
    else if window.Failure? then e == window.error
    else exists h :: Concerns(t, tenantID, window.value.0, window.value.1, h) && Refuses(h, groupBy, e)
  }

  lemma WhenWindowRefuses(t: Tables, tenantID: string, groupBy: GroupBy, start: Time, end: Time, e: Error)
    ensures (exists h :: h in TenantSnapshots(t, tenantID, start, end)
                         && HistoryError(h, groupBy, Names(t.rows, tenantID)) == Some(e))
            <==> exists h :: Concerns(t, tenantID, start, end, h) && Refuses(h, groupBy, e)
  {
    hide TenantSnapshots, HistoryError, Concerns, Refuses, Names;
    forall h ensures h in TenantSnapshots(t, tenantID, start, end)
                     && HistoryError(h, groupBy, Names(t.rows, tenantID)) == Some(e)
                     <==> Concerns(t, tenantID, start, end, h) && Refuses(h, groupBy, e)
    {
      WhenRefuses(t, tenantID, groupBy, start, end, h, e);
    }
  }

  /** Why a history of the tenant makes a request fail, if it does. */
  predicate Refuses(h: History<Snapshot>, groupBy: GroupBy, e: Error)
  {
    if h.message.Malformed? then e == BadMessage
    else groupBy.Unknown? && h.message.value.nodes != [] && e == BadGroupBy(groupBy.value)
  }

  lemma WhenRefuses(t: Tables, tenantID: string, groupBy: GroupBy, start: Time, end: Time, h: History<Snapshot>,
                    e: Error)
    ensures h in TenantSnapshots(t, tenantID, start, end)
            && HistoryError(h, groupBy, Names(t.rows, tenantID)) == Some(e)
            <==> Concerns(t, tenantID, start, end, h) && Refuses(h, groupBy, e)
  {
    OnlyTheTenantsHistories(t, tenantID, start, end, h);
    hide TenantSnapshots;
  }

  /** A stored history of the tenant in the window. */
  ghost predicate Concerns(t: Tables, tenantID: string, start: Time, end: Time, h: History<Snapshot>)
  {
    && h in t.snapshots && h.clusterID in t.rows && t.rows[h.clusterID].tenantID == tenantID
    && start <= h.createdAt < end
  }

  lemma NoRows(t: Tables, tenantID: string)
    ensures Names(t.rows, tenantID) == map[] <==> forall id :: id in t.rows ==> t.rows[id].tenantID != tenantID
  {
    if id :| id in t.rows && t.rows[id].tenantID == tenantID {
      assert id in Names(t.rows, tenantID);
    }
  }
}
