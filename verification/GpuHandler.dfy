/** `ListGpuUsages`: the whole handler against a direct definition of its response. */
module GpuHandler {
  import opened Seqs
  import Folds
  import Ordering
  import opened Grouping
  import GroupTotals
  import opened Telemetry
  import FirstErrors
  import opened TimeWindow
  import opened Store
  import opened GpuValues

  datatype Datapoint = Datapoint(timestamp: int, values: seq<GpuValue>)

  /** The tenant's GPU histories in a window, filtered from the table at once. */
  ghost function TenantGpus(t: Tables, tenantID: string, start: Time, end: Time): seq<History<GpuTelemetry>>
  {
    Window(t.gpus, Names(t.rows, tenantID).Keys, start, end)
  }

  ghost function AllNodes(hs: seq<History<GpuTelemetry>>, names: map<string, string>): seq<ClusterNode>
  {
    ClusterNodeOrder();
    Ordering.Sorted(ClusterNodeLess, Keys(RowsOf(hs, names)))
  }

  /** The datapoint of one hour: the values of exactly the histories created in that hour. */
  ghost function DatapointOf(hs: seq<History<GpuTelemetry>>, names: map<string, string>, t: Time): Datapoint
  {
    Datapoint(Unix(t), Values(RowsOf(Slot(hs, t), names), AllNodes(hs, names)))
  }

  ghost function Datapoints(hs: seq<History<GpuTelemetry>>, names: map<string, string>, start: Time, n: nat)
    : seq<Datapoint>
  {
    seq(n, i requires 0 <= i < n => DatapointOf(hs, names, start + i * HOUR))
  }

  /** The response, read off the tables: one datapoint per hour of the window. */
  ghost function ResponseOf(t: Tables, tenantID: string, start: Time, end: Time): seq<Datapoint>
    requires start <= end
  {
    Datapoints(TenantGpus(t, tenantID, start, end), Names(t.rows, tenantID), start, (end - start) / HOUR)
  }

  /** The errors of the request itself and of the tables, as opposed to refusals by the database. */
  ghost predicate Rejects(t: Tables, tenantID: string, filter: Option<RequestFilter>, now: Time, e: Error)
  {
    var names := Names(t.rows, tenantID);
    var window := GetStartEndTime(filter, now, WEEK);
    if names == map[] then e == NoClusters
    else if window.Failure? then e == window.error
    else exists h :: h in TenantGpus(t, tenantID, window.value.0, window.value.1) && ListError(h, names) == Some(e)
  }

  // ----- order independence

  /** A history up to the order of its nodes. */
  ghost function Shape(h: History<GpuTelemetry>): (string, Option<multiset<GpuNode>>)
  {
    (h.clusterID, if h.message.Malformed? then None else Some(multiset(h.message.value.nodes)))
  }

  /** The same histories in any order, with the nodes of every message in any order. */
  ghost predicate SameHistories(hs: seq<History<GpuTelemetry>>, hs': seq<History<GpuTelemetry>>)
  {
    multiset(Map(Shape, hs)) == multiset(Map(Shape, hs'))
  }

  lemma RowsPermute(hs: seq<History<GpuTelemetry>>, hs': seq<History<GpuTelemetry>>, names: map<string, string>)
    requires SameHistories(hs, hs')
    ensures SameUpToOrder(RowsOf(hs, names), RowsOf(hs', names))
  {
    var bag := (h: History<GpuTelemetry>) => Bag(RowOf(h, names));
    forall h, h' | h in hs && h' in hs' && Shape(h) == Shape(h') ensures bag(h) == bag(h') {
      if h.message.Encoded? {
        MapPermutes((n: GpuNode) => Entry(h.clusterID, n, names), h.message.value.nodes, h'.message.value.nodes);
      }
    }
    MapFactors(Shape, bag, hs, hs');
    assert Map(Bag, RowsOf(hs, names)) == Map(bag, hs);
    assert Map(Bag, RowsOf(hs', names)) == Map(bag, hs');
  }

  lemma ReportedOrderIndependent(rows: seq<Row<ClusterNode, Usage>>, rows': seq<Row<ClusterNode, Usage>>,
                                 cn: ClusterNode)
    requires SameUpToOrder(rows, rows')
    ensures Reported(rows, cn) == Reported(rows', cn)
  {
    hide WrapUsage, ValueOf, Mean, NoValue, GroupTotals.Total, Count, SameUpToOrder, Folds.Lawful;
    UsagesLawful();
    OrderIndependent(rows, rows', cn);
    GroupTotals.TotalOrderIndependent(USAGES, rows, rows', cn);
  }

  /** Over exact numbers the values of a datapoint do not depend on the order of its histories or of the nodes in
      them. */
  lemma ValuesOrderIndependent(hs: seq<History<GpuTelemetry>>, hs': seq<History<GpuTelemetry>>,
                               names: map<string, string>, cns: seq<ClusterNode>)
    requires SameHistories(hs, hs')
    ensures Values(RowsOf(hs, names), cns) == Values(RowsOf(hs', names), cns)
    ensures Keys(RowsOf(hs, names)) == Keys(RowsOf(hs', names))
  {
    var rows, rows' := RowsOf(hs, names), RowsOf(hs', names);
    RowsPermute(hs, hs', names);
    hide RowsOf, SameHistories, Reported, Keys;
    KeysOrderIndependent(rows, rows');
    forall cn ensures Reported(rows, cn) == Reported(rows', cn) {
      ReportedOrderIndependent(rows, rows', cn);
    }
  }

  lemma SlotsSame(hs: seq<History<GpuTelemetry>>, all: seq<History<GpuTelemetry>>, names: map<string, string>,
                  t: Time, cns: seq<ClusterNode>)
    requires multiset(hs) == multiset(all)
    ensures Values(RowsOf(Slot(hs, t), names), cns) == Values(RowsOf(Slot(all, t), names), cns)
    ensures Keys(RowsOf(hs, names)) == Keys(RowsOf(all, names))
  {
    hide *;
    SlotPermutes(hs, all, t);
    SameUpToOrderOfHistories(Slot(hs, t), Slot(all, t));
    SameUpToOrderOfHistories(hs, all);
    ValuesOrderIndependent(Slot(hs, t), Slot(all, t), names, cns);
    ValuesOrderIndependent(hs, all, names, cns);
  }

  lemma SameUpToOrderOfHistories(hs: seq<History<GpuTelemetry>>, all: seq<History<GpuTelemetry>>)
    requires multiset(hs) == multiset(all)
    ensures SameHistories(hs, all)
  {
    MapPermutes(Shape, hs, all);
  }

  // ----- the handler

  method ListGpuUsages(store: Store, tenantID: string, filter: Option<RequestFilter>, now: Time)
    returns (r: Result<seq<Datapoint>>)
    requires store.Valid()
    modifies store`refusals
    ensures r == Failure(StoreFailure) <==> store.refusals > old(store.refusals)
    ensures r.Failure? && r.error != StoreFailure ==> Rejects(store.View(), tenantID, filter, now, r.error)
    ensures r.Success? ==>
              && (forall e :: !Rejects(store.View(), tenantID, filter, now, e))
              && GetStartEndTime(filter, now, WEEK).Success?
              && var (start, end) := GetStartEndTime(filter, now, WEEK).value;
              r.value == ResponseOf(store.View(), tenantID, start, end)
  {
    hide RowsOf, Keys, ClusterNodeLess, ListError, NodeError, FirstListError, Window, GetStartEndTime, Datapoints,
      Names, NamesOf, DistinctIDs, AllNodes;
    var cs := store.ListClusterSnapshotsByTenantID(tenantID);
    if cs.Failure? {
      return Failure(StoreFailure);
    }
    ghost var names0 := Names(store.rows, tenantID);
    if cs.value == [] {
      return Failure(NoClusters);
    }
    var window := GetStartEndTime(filter, now, WEEK);
    if window.Failure? {
      return Failure(window.error);
    }
    var (start, end) := window.value;
    var gathered, hs, names := Gather(store, cs.value, start, end);
    if !gathered {
      return Failure(StoreFailure);
    }
    assert names == names0;
    ghost var all := TenantGpus(store.View(), tenantID, start, end);
    ErrorsSame(hs, all, names);
    NoHistoryRefuses(names);
    var cns := GetAllClusterNodes(hs, names);
    if cns.Failure? {
      return Failure(cns.error);
    }
    NodeList(hs, names, cns.value);
    var dps := Answer(hs, all, names, cns.value, start, end);
    return Success(dps);
  }

  lemma NoHistoryRefuses(names: map<string, string>)
    ensures forall h :: ListError(h, names) != Some(StoreFailure)
  {
  }

  lemma NodeList(hs: seq<History<GpuTelemetry>>, names: map<string, string>, cns: seq<ClusterNode>)
    requires Ordering.StrictTotalOrder(ClusterNodeLess)
    requires cns == Ordering.Sorted(ClusterNodeLess, Keys(RowsOf(hs, names)))
    ensures cns == AllNodes(hs, names)
  {
  }

  lemma ErrorsSame(hs: seq<History<GpuTelemetry>>, all: seq<History<GpuTelemetry>>, names: map<string, string>)
    requires multiset(hs) == multiset(all)
    ensures match FirstListError(hs, names)
            case None => forall h :: h in all ==> ListError(h, names).None?
            case Some(e) => exists h :: h in all && ListError(h, names) == Some(e)
  {
    FirstErrors.ErrorsUpToOrder((h: History<GpuTelemetry>) => ListError(h, names), hs, all);
  }

  /** Fetches the histories cluster by cluster, and maps cluster IDs to names on the way. */
  method Gather(store: Store, cs: seq<ClusterRow>, start: Time, end: Time)
    returns (ok: bool, hs: seq<History<GpuTelemetry>>, names: map<string, string>)
    requires DistinctIDs(cs)
    modifies store`refusals
    ensures store.refusals == old(store.refusals) + if ok then 0 else 1
    ensures ok ==> names == NamesOf(cs)
    ensures ok ==> multiset(hs) == multiset(Window(store.gpus, NamesOf(cs).Keys, start, end))
  {
    hs, names := [], map[];
    WindowNone(store.gpus, start, end);
    assert names.Keys == {};
    assert cs[..|cs|] == cs;
    for i := 0 to |cs|
      invariant store.refusals == old(store.refusals)
      invariant names == NamesOf(cs[..i])
      invariant multiset(hs) == multiset(Window(store.gpus, names.Keys, start, end))
    {
      var c := cs[i];
      DistinctIDsPrefix(cs, i + 1);
      assert cs[..i + 1][..i] == cs[..i];
      var chs := store.ListGPUTelemetryHistories(c.clusterID, start, end);
      if chs.Failure? {
        return false, hs, names;
      }
      WindowAddCluster(store.gpus, names.Keys, c.clusterID, start, end);
      hs := hs + chs.value;
      names := names[c.clusterID := c.name];
      assert names.Keys == NamesOf(cs[..i]).Keys + {c.clusterID};
    }
    ok := true;
  }

  /** Buckets the histories in one pass and computes a datapoint for every hour of the window. An error of a
      bucket cannot occur here, since the same histories have already passed when the nodes were listed. */
  method Answer(hs: seq<History<GpuTelemetry>>, ghost all: seq<History<GpuTelemetry>>, names: map<string, string>,
                cns: seq<ClusterNode>, start: Time, end: Time)
    returns (dps: seq<Datapoint>)
    requires multiset(hs) == multiset(all)
    requires FirstListError(hs, names).None?
    requires cns == AllNodes(hs, names)
    requires Aligned(start) && Aligned(end) && start <= end
    ensures dps == Datapoints(all, names, start, (end - start) / HOUR)
  {
    hide *;
    var buckets := BucketByHour(hs);
    dps := [];
    var t := start;
    NoDatapoints(all, names, start);
    while t < end
      invariant Aligned(t) && start <= t <= end && t == start + |dps| * HOUR
      invariant dps == Datapoints(all, names, start, |dps|)
      decreases end - t
    {
      BucketFails(hs, names, t);
      var vs := CalculateGPUUsageValues(Lookup(buckets, Unix(t)), names, cns);
      NextDatapoint(hs, all, names, start, |dps|);
      NextHour(start, t, |dps|);
      LastHour(t, end);
      dps := dps + [Datapoint(Unix(t), vs.value)];
      t := t + HOUR;
    }
    NextHour(start, t, |dps|);
  }

  lemma NoDatapoints(all: seq<History<GpuTelemetry>>, names: map<string, string>, start: Time)
    ensures Datapoints(all, names, start, 0) == [] && HOUR > 0
  {
  }

  /** The datapoint of the next hour, computed from any permutation of the histories. */
  lemma NextDatapoint(hs: seq<History<GpuTelemetry>>, all: seq<History<GpuTelemetry>>, names: map<string, string>,
                      start: Time, n: nat)
    requires multiset(hs) == multiset(all)
    ensures var t := start + n * HOUR;
            Datapoints(all, names, start, n + 1)
            == Datapoints(all, names, start, n)
               + [Datapoint(Unix(t), Values(RowsOf(Slot(hs, t), names), AllNodes(hs, names)))]
  {
    hide Values, RowsOf, Slot, Keys;
    SlotsSame(hs, all, names, start + n * HOUR, AllNodes(hs, names));
  }

  /** A bucket has an error only if listing the nodes of the whole list has one. */
  lemma BucketFails(hs: seq<History<GpuTelemetry>>, names: map<string, string>, t: Time)
    requires FirstListError(hs, names).None?
    ensures FirstNodeError(Slot(hs, t), names).None?
  {
    ErrorsSame(hs, hs, names);
    FirstErrors.FirstOfMeaning((h: History<GpuTelemetry>) => NodeError(h, names), Slot(hs, t));
    forall h | h in Slot(hs, t) ensures NodeError(h, names).None? {
      assert h in hs;
    }
  }
}
