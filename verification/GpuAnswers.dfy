/** The response of `ListGpuUsages` in terms of the tables alone: whose histories it is made from, at which times,
    with which values, and when it is refused. */
module GpuAnswers {
  import opened Seqs
  import Ordering
  import Grouping
  import opened Telemetry
  import opened TimeWindow
  import opened Store
  import opened GpuValues
  import opened GpuHandler
  import opened GpuMeaning
  import GpuResponses
  import SnapshotAnswers

  // ----- whose histories

  /** A response is made from exactly the histories of clusters whose row belongs to the tenant, created in the
      half-open window, each as often as it is stored. */
  lemma OnlyTheTenantsHistories(t: Tables, tenantID: string, start: Time, end: Time, h: History<GpuTelemetry>)
    ensures multiset(TenantGpus(t, tenantID, start, end))[h]
            == if h.clusterID in t.rows && t.rows[h.clusterID].tenantID == tenantID && start <= h.createdAt < end
               then multiset(t.gpus)[h] else 0
    ensures h in TenantGpus(t, tenantID, start, end)
            <==> h in t.gpus && h.clusterID in t.rows && t.rows[h.clusterID].tenantID == tenantID
                 && start <= h.createdAt < end
  {
    var ids := Names(t.rows, tenantID).Keys;
    FilterCounts((h: History<GpuTelemetry>) => h.clusterID in ids && start <= h.createdAt < end, t.gpus, h);
  }

  /** An hour's datapoint is made from exactly the histories created within 3600 seconds from its start. */
  lemma OnlyTheHoursHistories(hs: seq<History<GpuTelemetry>>, u: Time, h: History<GpuTelemetry>)
    ensures multiset(Slot(hs, u))[h] == if u <= h.createdAt < u + 3_600_000_000_000 then multiset(hs)[h] else 0
    ensures h in Slot(hs, u) <==> h in hs && u <= h.createdAt < u + 3_600_000_000_000
  {
    var end := u + HOUR;
    FilterCounts((h: History<GpuTelemetry>) => u <= h.createdAt < end, hs, h);
  }

  /** Tables that agree on the tenant's rows, and on the histories of those clusters in the window, give the same
      response: other tenants' rows and histories do not matter. */
  lemma OtherTenantsDoNotMatter(t: Tables, t': Tables, tenantID: string, start: Time, end: Time)
    requires start <= end && SnapshotAnswers.SameRowsFor(t, t', tenantID)
    requires forall h: History<GpuTelemetry> ::
               h.clusterID in t.rows && t.rows[h.clusterID].tenantID == tenantID && start <= h.createdAt < end ==>
                 multiset(t.gpus)[h] == multiset(t'.gpus)[h]
    ensures ResponseOf(t, tenantID, start, end) == ResponseOf(t', tenantID, start, end)
  {
    hide ResponseOf, TenantGpus, Names;
    SnapshotAnswers.SameNames(t, t', tenantID);
    var a, b := multiset(TenantGpus(t, tenantID, start, end)), multiset(TenantGpus(t', tenantID, start, end));
    forall h ensures a[h] == b[h] {
      OnlyTheTenantsHistories(t, tenantID, start, end, h);
      OnlyTheTenantsHistories(t', tenantID, start, end, h);
    }
    Extensional(a, b);
    GpuResponses.ResponseDependsOnTenantOnly(t, t', tenantID, start, end);
  }

  // ----- times

  /** There is a datapoint for every 3600 seconds of the window, stamped with its start in seconds. */
  lemma ResponseShape(t: Tables, tenantID: string, start: Time, end: Time)
    requires Aligned(start) && Aligned(end) && start <= end
    ensures var dps := ResponseOf(t, tenantID, start, end);
            && |dps| * 3_600_000_000_000 == end - start
            && forall i :: 0 <= i < |dps| ==> dps[i].timestamp * 1_000_000_000 == start + i * 3_600_000_000_000
  {
    hide Values, RowsOf, Slot, AllNodes, TenantGpus, Names;
    SnapshotAnswers.WholeHours(start, end);
    var n := (end - start) / HOUR;
    forall i | 0 <= i < n ensures Unix(start + i * HOUR) * 1_000_000_000 == start + i * 3_600_000_000_000 {
      SnapshotAnswers.WholeSeconds(start, i);
    }
  }

  // ----- values

  lemma TenantNamed(t: Tables, tenantID: string, start: Time, end: Time, u: Time)
    ensures AllNamed(Slot(TenantGpus(t, tenantID, start, end), u), Names(t.rows, tenantID))
  {
    var hs := TenantGpus(t, tenantID, start, end);
    forall h | h in Slot(hs, u) ensures h.clusterID in Names(t.rows, tenantID) {
      OnlyTheTenantsHistories(t, tenantID, start, end, h);
    }
  }

  /** Every value is that of its node's entries in its hour: the mean over the histories that mention the node of its
      GPU averages and of its memory averages, and the greatest of its maxima. */
  lemma ValuesAreOfEntries(t: Tables, tenantID: string, start: Time, end: Time, i: nat, v: GpuValue)
    requires start <= end && i < |ResponseOf(t, tenantID, start, end)|
    requires v in ResponseOf(t, tenantID, start, end)[i].values
    ensures var hour := Slot(TenantGpus(t, tenantID, start, end), start + i * HOUR);
            var names := Names(t.rows, tenantID);
            && AveragesOf(v, NodeEntries(hour, names, v.node), HistoriesWith(hour, names, v.node))
            && MaximaOf(v, NodeEntries(hour, names, v.node))
  {
    hide *;
    var hs, names := TenantGpus(t, tenantID, start, end), Names(t.rows, tenantID);
    var hour := Slot(hs, start + i * HOUR);
    GpuResponses.ResponseLength(t, tenantID, start, end);
    GpuResponses.DatapointValues(t, tenantID, start, end, i);
    GpuResponses.ValueIsReported(RowsOf(hour, names), AllNodes(hs, names), v);
    TenantNamed(t, tenantID, start, end, start + i * HOUR);
    AveragesAreOfEntries(hour, names, v.node);
    MaximaAreOfEntries(hour, names, v.node);
  }

  /** Datapoints list exactly the nodes that some history of the tenant in the window mentions. */
  lemma ListedNodes(t: Tables, tenantID: string, start: Time, end: Time, cn: ClusterNode)
    ensures var (hs, names) := (TenantGpus(t, tenantID, start, end), Names(t.rows, tenantID));
            cn in Ordering.Elements(AllNodes(hs, names)) <==> exists h :: h in hs && Mentions(h, names, cn)
  {
    hide RowsOf, Grouping.Keys, Grouping.Count, AllNodes, Mentions, TenantGpus, Names, Ordering.Elements,
      ClusterNodeLess;
    var hs, names := TenantGpus(t, tenantID, start, end), Names(t.rows, tenantID);
    WindowNamed(t, tenantID, start, end);
    GpuResponses.AllNodesCover(hs, names);
    MembersAreEntries(hs, names, cn);
    Grouping.Present(RowsOf(hs, names), cn);
    var with := Filter((h: History<GpuTelemetry>) => Mentions(h, names, cn), hs);
    assert forall h :: h in with <==> h in hs && Mentions(h, names, cn);
    assert with != [] ==> with[0] in with;
  }

  lemma WindowNamed(t: Tables, tenantID: string, start: Time, end: Time)
    ensures AllNamed(TenantGpus(t, tenantID, start, end), Names(t.rows, tenantID))
  {
    forall h | h in TenantGpus(t, tenantID, start, end) ensures h.clusterID in Names(t.rows, tenantID) {
      OnlyTheTenantsHistories(t, tenantID, start, end, h);
    }
  }

  /** The nodes of a response are in the order of cluster names, and of node names within a cluster. */
  lemma NodesInOrder(hs: seq<History<GpuTelemetry>>, names: map<string, string>, i: nat, j: nat)
    requires i < j < |AllNodes(hs, names)|
    ensures var (a, b) := (AllNodes(hs, names)[i], AllNodes(hs, names)[j]);
            || Ordering.StringLess(a.clusterName, b.clusterName)
            || (a.clusterName == b.clusterName && Ordering.StringLess(a.nodeName, b.nodeName))
  {
    hide AllNodes, Ordering.StringLess;
    GpuResponses.AllNodesCover(hs, names);
  }

  // ----- refusals

  /** When a request is refused for its own or the tables' sake: the tenant has no cluster, or the window is bad, or
      a history of the tenant in the window does not unmarshal. */
  lemma WhenRejected(t: Tables, tenantID: string, filter: Option<RequestFilter>, now: Time, e: Error)
    ensures Rejects(t, tenantID, filter, now, e) <==> Faulty(t, tenantID, filter, now, e)
  {
    hide GetStartEndTime, TenantGpus, ListError, Names;
    var names, window := Names(t.rows, tenantID), GetStartEndTime(filter, now, WEEK);
    SnapshotAnswers.NoRows(t, tenantID);
    if window.Success? {
      WhenWindowRefuses(t, tenantID, window.value.0, window.value.1, e);
    }
  }

  /** The fault of a request or of the tables that gives the error `e`. */
  ghost predicate Faulty(t: Tables, tenantID: string, filter: Option<RequestFilter>, now: Time, e: Error)
  {
    var window := GetStartEndTime(filter, now, WEEK);
    if forall id :: id in t.rows ==> t.rows[id].tenantID != tenantID then e == NoClusters
    else if window.Failure? then e == window.error
    else e == BadMessage && exists h :: Bad(t, tenantID, window.value.0, window.value.1, h)
  }

  /** A stored history of the tenant in the window that does not unmarshal. */
  ghost predicate Bad(t: Tables, tenantID: string, start: Time, end: Time, h: History<GpuTelemetry>)
  {
    && h in t.gpus && h.clusterID in t.rows && t.rows[h.clusterID].tenantID == tenantID
    && start <= h.createdAt < end && h.message.Malformed?
  }

  lemma WhenWindowRefuses(t: Tables, tenantID: string, start: Time, end: Time, e: Error)
    ensures (exists h :: h in TenantGpus(t, tenantID, start, end) && ListError(h, Names(t.rows, tenantID)) == Some(e))
            <==> e == BadMessage && exists h :: Bad(t, tenantID, start, end, h)
  {
    hide TenantGpus, ListError, Bad, Names;
    forall h ensures h in TenantGpus(t, tenantID, start, end) && ListError(h, Names(t.rows, tenantID)) == Some(e)
                     <==> e == BadMessage && Bad(t, tenantID, start, end, h)
    {
      WhenRefuses(t, tenantID, start, end, h, e);
    }
  }

  lemma WhenRefuses(t: Tables, tenantID: string, start: Time, end: Time, h: History<GpuTelemetry>, e: Error)
    ensures h in TenantGpus(t, tenantID, start, end) && ListError(h, Names(t.rows, tenantID)) == Some(e)
            <==> e == BadMessage && Bad(t, tenantID, start, end, h)
  {
    OnlyTheTenantsHistories(t, tenantID, start, end, h);
    hide TenantGpus;
  }
}
