/** `ListClusterSnapshots`: the whole handler against a direct definition of its response. */
module SnapshotHandler {
  import GoInt
  import Seqs
  import Ordering
  import Grouping
  import opened Telemetry
  import FirstErrors
  import opened TimeWindow
  import opened Store
  import opened SnapshotValues
  import SnapshotTheorems

  datatype Datapoint = Datapoint(timestamp: int, values: seq<Value>)

  datatype Response = Response(datapoints: seq<Datapoint>, clusterCount: GoInt.Int32)

  /** The tenant's snapshot histories in a window, filtered from the table at once. */
  ghost function TenantSnapshots(t: Tables, tenantID: string, start: Time, end: Time): seq<History<Snapshot>>
  {
    Window(t.snapshots, Names(t.rows, tenantID).Keys, start, end)
  }

  ghost function GroupingValues(hs: seq<History<Snapshot>>, groupBy: GroupBy, names: map<string, string>): seq<string>
  {
    Ordering.StringOrder();
    Ordering.Sorted(Ordering.StringLess, Grouping.Keys(RowsOf(hs, groupBy, names)))
  }

  /** The datapoint of one hour: the values of exactly the histories created in that hour. */
  ghost function DatapointOf(hs: seq<History<Snapshot>>, groupBy: GroupBy, names: map<string, string>, t: Time)
    : Datapoint
  {
    Datapoint(Unix(t), Values(RowsOf(Slot(hs, t), groupBy, names), groupBy, GroupingValues(hs, groupBy, names)))
  }

  ghost function Datapoints(hs: seq<History<Snapshot>>, groupBy: GroupBy, names: map<string, string>,
                            start: Time, n: nat): seq<Datapoint>
  {
    seq(n, i requires 0 <= i < n => DatapointOf(hs, groupBy, names, start + i * HOUR))
  }

  /** The response, read off the tables: one datapoint per hour of the window. */
  ghost function ResponseOf(t: Tables, tenantID: string, groupBy: GroupBy, start: Time, end: Time): Response
    requires start <= end
  {
    var names := Names(t.rows, tenantID);
    Response(Datapoints(TenantSnapshots(t, tenantID, start, end), groupBy, names, start, (end - start) / HOUR),
             GoInt.Wrap32(|names|))
  }

  /** The errors of the request itself and of the tables, as opposed to refusals by the database. */
  ghost predicate Rejects(t: Tables, tenantID: string, filter: Option<RequestFilter>, groupBy: GroupBy, now: Time,
                          e: Error)
  {
    var names := Names(t.rows, tenantID);
    var window := GetStartEndTime(filter, now, WEEK);
    if names == map[] then e == NoClusters
    else if window.Failure? then e == window.error
    else exists h :: h in TenantSnapshots(t, tenantID, window.value.0, window.value.1)
                     && HistoryError(h, groupBy, names) == Some(e)
  }

  method ListClusterSnapshots(store: Store, tenantID: string, filter: Option<RequestFilter>, groupBy: GroupBy,
                              now: Time)
    returns (r: Result<Response>)
    requires store.Valid()
    modifies store`refusals
    ensures r == Failure(StoreFailure) <==> store.refusals > old(store.refusals)
    ensures r.Failure? && r.error != StoreFailure ==> Rejects(store.View(), tenantID, filter, groupBy, now, r.error)
    ensures r.Success? ==>
              && (forall e :: !Rejects(store.View(), tenantID, filter, groupBy, now, e))
              && GetStartEndTime(filter, now, WEEK).Success?
              && var (start, end) := GetStartEndTime(filter, now, WEEK).value;
              r.value == ResponseOf(store.View(), tenantID, groupBy, start, end)
  {
    hide RowsOf, Grouping.Keys, Ordering.StringLess, HistoryError, FirstError, Window, GetStartEndTime, Datapoints,
      Names, NamesOf, DistinctIDs, GroupingValues;
    var cs := store.ListClusterSnapshotsByTenantID(tenantID);
    if cs.Failure? {
      return Failure(StoreFailure);
    }
    ghost var names0 := Names(store.rows, tenantID);
    if cs.value == [] {
      return Failure(NoClusters);
    }
    var window := GetStartEndTime(filter, now, WEEK);
    if window.Failure? {
      return Failure(window.error);
    }
    var (start, end) := window.value;
    var gathered, hs, names := Gather(store, cs.value, start, end);
    if !gathered {
      return Failure(StoreFailure);
    }
    assert names == names0;
    ghost var all := TenantSnapshots(store.View(), tenantID, start, end);
    ErrorsSame(hs, all, groupBy, names);
    NoHistoryRefuses(groupBy, names);
    var gvals := GetAllGroupingValues(hs, groupBy, names);
    if gvals.Failure? {
      return Failure(gvals.error);
    }
    KeyList(hs, groupBy, names, gvals.value);
    var dps := Answer(hs, all, groupBy, names, gvals.value, start, end);
    return Success(Response(dps, GoInt.Wrap32(|names|)));
  }

  lemma NoHistoryRefuses(groupBy: GroupBy, names: map<string, string>)
    ensures forall h :: HistoryError(h, groupBy, names) != Some(StoreFailure)
  {
  }

  lemma KeyList(hs: seq<History<Snapshot>>, groupBy: GroupBy, names: map<string, string>, gvals: seq<string>)
    requires Ordering.StrictTotalOrder(Ordering.StringLess)
    requires gvals == Ordering.Sorted(Ordering.StringLess, Grouping.Keys(RowsOf(hs, groupBy, names)))
    ensures gvals == GroupingValues(hs, groupBy, names)
  {
  }

  /** Fetches the histories cluster by cluster, and maps cluster IDs to names on the way. */
  method Gather(store: Store, cs: seq<ClusterRow>, start: Time, end: Time)
    returns (ok: bool, hs: seq<History<Snapshot>>, names: map<string, string>)
    requires DistinctIDs(cs)
    modifies store`refusals
    ensures store.refusals == old(store.refusals) + if ok then 0 else 1
    ensures ok ==> names == NamesOf(cs)
    ensures ok ==> multiset(hs) == multiset(Window(store.snapshots, NamesOf(cs).Keys, start, end))
  {
    hs, names := [], map[];
    WindowNone(store.snapshots, start, end);
    assert names.Keys == {};
    assert cs[..|cs|] == cs;
    for i := 0 to |cs|
      invariant store.refusals == old(store.refusals)
      invariant names == NamesOf(cs[..i])
      invariant multiset(hs) == multiset(Window(store.snapshots, names.Keys, start, end))
    {
      var c := cs[i];
      DistinctIDsPrefix(cs, i + 1);
      assert cs[..i + 1][..i] == cs[..i];
      var chs := store.ListClusterSnapshotHistories(c.clusterID, start, end);
      if chs.Failure? {
        return false, hs, names;
      }
      WindowAddCluster(store.snapshots, names.Keys, c.clusterID, start, end);
      hs := hs + chs.value;
      names := names[c.clusterID := c.name];
      assert names.Keys == NamesOf(cs[..i]).Keys + {c.clusterID};
    }
    ok := true;
  }

  lemma ErrorsSame(hs: seq<History<Snapshot>>, all: seq<History<Snapshot>>, groupBy: GroupBy,
                   names: map<string, string>)
    requires multiset(hs) == multiset(all)
    ensures match FirstError(hs, groupBy, names)
            case None => forall h :: h in all ==> HistoryError(h, groupBy, names).None?
            case Some(e) => exists h :: h in all && HistoryError(h, groupBy, names) == Some(e)
  {
    FirstErrors.ErrorsUpToOrder((h: History<Snapshot>) => HistoryError(h, groupBy, names), hs, all);
  }

  lemma SlotsSame(hs: seq<History<Snapshot>>, all: seq<History<Snapshot>>, groupBy: GroupBy, names: map<string, string>,
                  t: Time, gvals: seq<string>)
    requires multiset(hs) == multiset(all)
    ensures Values(RowsOf(Slot(hs, t), groupBy, names), groupBy, gvals)
            == Values(RowsOf(Slot(all, t), groupBy, names), groupBy, gvals)
    ensures Grouping.Keys(RowsOf(hs, groupBy, names)) == Grouping.Keys(RowsOf(all, groupBy, names))
  {
    hide *;
    SlotPermutes(hs, all, t);
    SameUpToOrderOfHistories(Slot(hs, t), Slot(all, t));
    SameUpToOrderOfHistories(hs, all);
    SnapshotTheorems.ValuesOrderIndependent(Slot(hs, t), Slot(all, t), groupBy, names, gvals);
    SnapshotTheorems.ValuesOrderIndependent(hs, all, groupBy, names, gvals);
  }

  lemma SameUpToOrderOfHistories(hs: seq<History<Snapshot>>, all: seq<History<Snapshot>>)
    requires multiset(hs) == multiset(all)
    ensures SnapshotTheorems.SameHistories(hs, all)
  {
    Seqs.MapPermutes(SnapshotTheorems.Shape, hs, all);
  }

  /** Buckets the histories in one pass and computes a datapoint for every hour of the window. An error of a
      bucket cannot occur here, since the same histories have already passed when the keys were listed. */
  method Answer(hs: seq<History<Snapshot>>, ghost all: seq<History<Snapshot>>, groupBy: GroupBy,
                names: map<string, string>, gvals: seq<string>, start: Time, end: Time)
    returns (dps: seq<Datapoint>)
    requires multiset(hs) == multiset(all)
    requires FirstError(hs, groupBy, names).None?
    requires gvals == GroupingValues(hs, groupBy, names)
    requires Aligned(start) && Aligned(end) && start <= end
    ensures dps == Datapoints(all, groupBy, names, start, (end - start) / HOUR)
  {
    hide *;
    var buckets := BucketByHour(hs);
    dps := [];
    var t := start;
    NoDatapoints(all, groupBy, names, start);
    while t < end
      invariant Aligned(t) && start <= t <= end && t == start + |dps| * HOUR
      invariant dps == Datapoints(all, groupBy, names, start, |dps|)
      decreases end - t
    {
      BucketFails(hs, groupBy, names, t);
      var vs := CalculateSnapshotValues(Lookup(buckets, Unix(t)), groupBy, names, gvals);
      NextDatapoint(hs, all, groupBy, names, start, |dps|);
      NextHour(start, t, |dps|);
      LastHour(t, end);
      dps := dps + [Datapoint(Unix(t), vs.value)];
      t := t + HOUR;
    }
    NextHour(start, t, |dps|);
  }

  lemma NoDatapoints(all: seq<History<Snapshot>>, groupBy: GroupBy, names: map<string, string>, start: Time)
    ensures Datapoints(all, groupBy, names, start, 0) == [] && HOUR > 0
  {
  }

  /** The datapoint of the next hour, computed from any permutation of the histories. */
  lemma NextDatapoint(hs: seq<History<Snapshot>>, all: seq<History<Snapshot>>, groupBy: GroupBy,
                      names: map<string, string>, start: Time, n: nat)
    requires multiset(hs) == multiset(all)
    ensures var (t, gvals) := (start + n * HOUR, GroupingValues(hs, groupBy, names));
            Datapoints(all, groupBy, names, start, n + 1)
            == Datapoints(all, groupBy, names, start, n)
               + [Datapoint(Unix(t), Values(RowsOf(Slot(hs, t), groupBy, names), groupBy, gvals))]
  {
    hide Values, RowsOf, Slot, Grouping.Keys;
    SlotsSame(hs, all, groupBy, names, start + n * HOUR, GroupingValues(hs, groupBy, names));
  }

  /** A bucket has an error only if the whole list has one. */
  lemma BucketFails(hs: seq<History<Snapshot>>, groupBy: GroupBy, names: map<string, string>, t: Time)
    requires FirstError(hs, groupBy, names).None?
    ensures FirstError(Slot(hs, t), groupBy, names).None?
  {
    ErrorsSame(hs, hs, groupBy, names);
    ErrorsSame(Slot(hs, t), Slot(hs, t), groupBy, names);
  }
}
