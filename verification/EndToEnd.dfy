/** From the agent's collectors to the answers of the list handlers, over all interleavings. */
module EndToEnd {
  import GoInt
  import opened Telemetry
  import opened TimeWindow
  import Store
  import opened Pipeline
  import opened PipelineTheorems
  import opened AgentMessages
  import AgentGpu
  import GroupTotals
  import GpuValues
  import GpuHandler
  import GpuResponses
  import SnapshotValues
  import SnapshotHandler
  import SnapshotResponses

  // ----- stored GPU telemetry can be queried

  /** Whenever the server has stored a GPU telemetry payload of some run, every window that contains its time shows
      every node of it to the run's tenant, in the datapoint of its hour, with maxima no less than the node's own. */
  lemma StoredGpuTelemetryIsQueryable(steps: seq<Step>, start: Time, end: Time, e: Entry, n: GpuNode)
    requires FixedTenants(After(steps).runs)
    requires e in After(steps).log && e.p.GpuPayload? && n in e.p.telemetry.nodes
    requires Aligned(start) && Aligned(end) && start <= e.at < end
    ensures var t := After(steps).tables;
            var i := HourOf(start, e.at);
            && e.info.clusterID in t.rows
            && i < |GpuHandler.ResponseOf(t, e.info.tenantID, start, end)|
            && exists v :: v in GpuHandler.ResponseOf(t, e.info.tenantID, start, end)[i].values
                           && v.node == GpuValues.ClusterNode(t.rows[e.info.clusterID].name, n.name)
                           && n.maxGpuUsed <= v.maxUsed && GpuValues.InGB(n.maxMemoryUsed) <= v.maxMemoryGb
  {
    var s := After(steps);
    var h := History(e.info.clusterID, Encoded(e.p.telemetry), e.at);
    LogIsStored(steps, e);
    NothingIsStoredInvisibly(steps);
    hide *;
    RunOfEntry(steps, e);
    RowHasTenantOfRun(steps, e.run);
    GpuResponses.StoredNodeIsReported(s.tables, e.info.tenantID, start, end, h, n);
  }

  lemma RunOfEntry(steps: seq<Step>, e: Entry)
    requires e in After(steps).log
    ensures e.run < |After(steps).runs| && After(steps).runs[e.run].info == e.info
  {
    InvAlways(steps);
  }

  lemma LogIsStored(steps: seq<Step>, e: Entry)
    requires e in After(steps).log
    ensures e.p.GpuPayload? ==> History(e.info.clusterID, Encoded(e.p.telemetry), e.at) in After(steps).tables.gpus
    ensures e.p.SnapshotPayload? ==>
              History(e.info.clusterID, Encoded(e.p.snapshot), e.at) in After(steps).tables.snapshots
  {
    hide After;
    InvAlways(steps);
    LoggedIsStored(After(steps).log, e);
  }

  /** The same for snapshots: whenever the server has stored a snapshot payload of some run, every window that
      contains its time counts every node of it for the run's tenant, in the datapoint of its hour: under a key that
      a grouped response lists, in the totals behind that key's value, and in no other total. */
  lemma StoredSnapshotIsQueryable(steps: seq<Step>, groupBy: SnapshotValues.GroupBy, start: Time, end: Time, e: Entry,
                                  n: SnapshotNode)
    requires FixedTenants(After(steps).runs) && !groupBy.Unknown?
    requires e in After(steps).log && e.p.SnapshotPayload? && n in e.p.snapshot.nodes
    requires Aligned(start) && Aligned(end) && start <= e.at < end
    ensures e.info.clusterID in After(steps).tables.rows
    ensures SnapshotResponses.NodeCounted(After(steps).tables, e.info.tenantID, groupBy, start, end,
                                          e.info.clusterID, e.at, n)
  {
    var s := After(steps);
    var h := History(e.info.clusterID, Encoded(e.p.snapshot), e.at);
    LogIsStored(steps, e);
    NothingIsStoredInvisibly(steps);
    hide *;
    RunOfEntry(steps, e);
    RowHasTenantOfRun(steps, e.run);
    SnapshotResponses.StoredNodeIsCounted(s.tables, e.info.tenantID, groupBy, start, end, h, n);
  }

  // ----- the errors that remain

  /** Tables written by the server never make a list handler fail: what it rejects is a tenant without clusters, a
      bad window or an unknown grouping. */
  lemma OnlyBadRequestsAreRejected(steps: seq<Step>, tenantID: string, filter: Option<RequestFilter>,
                                   groupBy: SnapshotValues.GroupBy, now: Time, err: Error)
    requires var t := After(steps).tables;
             SnapshotHandler.Rejects(t, tenantID, filter, groupBy, now, err)
             || GpuHandler.Rejects(t, tenantID, filter, now, err)
    ensures err in {NoClusters, BadStartTimestamp, BadEndTimestamp, EmptyWindow}
            || (groupBy.Unknown? && err == BadGroupBy(groupBy.value))
  {
    var t := After(steps).tables;
    hide After;
    InvAlways(steps);
    StoredIsLogged(After(steps).log);
    if SnapshotHandler.Rejects(t, tenantID, filter, groupBy, now, err) {
      SnapshotRejection(t, tenantID, filter, groupBy, now, err);
    } else {
      GpuRejection(t, tenantID, filter, now, err);
    }
  }

  lemma SnapshotRejection(t: Tables, tenantID: string, filter: Option<RequestFilter>, groupBy: SnapshotValues.GroupBy,
                          now: Time, err: Error)
    requires forall h :: h in t.snapshots ==> h.message.Encoded?
    requires SnapshotHandler.Rejects(t, tenantID, filter, groupBy, now, err)
    ensures err in {NoClusters, BadStartTimestamp, BadEndTimestamp, EmptyWindow}
            || (groupBy.Unknown? && err == BadGroupBy(groupBy.value))
  {
    var names, window := Store.Names(t.rows, tenantID), GetStartEndTime(filter, now, WEEK);
    if names != map[] && window.Success? {
      var (start, end) := window.value;
      var h :| h in SnapshotHandler.TenantSnapshots(t, tenantID, start, end)
               && SnapshotValues.HistoryError(h, groupBy, names) == Some(err);
      SnapshotResponses.WindowTimes(t.snapshots, names.Keys, start, end, h);
    }
  }

  lemma GpuRejection(t: Tables, tenantID: string, filter: Option<RequestFilter>, now: Time, err: Error)
    requires forall h :: h in t.gpus ==> h.message.Encoded?
    requires GpuHandler.Rejects(t, tenantID, filter, now, err)
    ensures err in {NoClusters, BadStartTimestamp, BadEndTimestamp, EmptyWindow}
  {
    GpuHistoriesHaveNames(t, tenantID);
  }

  lemma GpuHistoriesHaveNames(t: Tables, tenantID: string)
    requires forall h :: h in t.gpus ==> h.message.Encoded?
    ensures forall start: Time, end: Time, h :: h in GpuHandler.TenantGpus(t, tenantID, start, end) ==>
              GpuValues.ListError(h, Store.Names(t.rows, tenantID)).None?
  {
    forall start: Time, end: Time, h | h in GpuHandler.TenantGpus(t, tenantID, start, end)
      ensures GpuValues.ListError(h, Store.Names(t.rows, tenantID)).None?
    {
      GpuResponses.InWindow(t, tenantID, start, end, h);
    }
  }

  // ----- averages and maxima

  /** Whatever a run has produced was collected in one of the steps. */
  lemma {:induction false} ProducedWasCollected(steps: seq<Step>, i: nat, p: Payload)
    requires i < |After(steps).runs| && p in After(steps).runs[i].produced
    ensures Produce(i, p) in steps
  {
    if steps != [] {
      var init, last := steps[..|steps| - 1], steps[|steps| - 1];
      assert steps == init + [last];
      if last != Produce(i, p) {
        OtherStep(After(init), last, i, p);
        ProducedWasCollected(init, i, p);
      }
    }
  }

  lemma OtherStep(s: System, step: Step, i: nat, p: Payload)
    requires i < |Do(s, step).runs| && p in Do(s, step).runs[i].produced && step != Produce(i, p)
    ensures i < |s.runs| && p in s.runs[i].produced
  {
  }

  lemma {:induction false} LoggedIsListed(log: seq<Entry>, e: Entry)
    requires e in log
    ensures e.p in Stored(log, e.run)
  {
    if e != log[|log| - 1] {
      LoggedIsListed(log[..|log| - 1], e);
    }
  }

  /** Every stored GPU telemetry message was collected in one of the steps. */
  lemma StoredWasCollected(steps: seq<Step>, h: History<GpuTelemetry>)
    requires h in After(steps).tables.gpus
    ensures h.message.Encoded?
    ensures exists i :: Produce(i, GpuPayload(h.message.value)) in steps
  {
    hide After;
    InvAlways(steps);
    var s := After(steps);
    StoredIsLogged(s.log);
    var e :| e in s.log && e.p == GpuPayload(h.message.value);
    hide Inv;
    RunOfEntry(steps, e);
    LoggedIsListed(s.log, e);
    ExactlyOnceInOrder(steps, e.run);
    ProducedWasCollected(steps, e.run, e.p);
  }

  /** `g` is a message of the GPU telemetry collector, read from nodes with distinct names. */
  ghost predicate AgentMade(g: GpuTelemetry)
  {
    exists r: Reading, toInt64: real -> GoInt.Int64 ::
      MessageOf(r, toInt64, g) && AgentGpu.DistinctNames(r.nodeList) && AgentGpu.Conversion(toInt64) && MemoryFits(r)
  }

  lemma AgentMadeWellFormed(g: GpuTelemetry)
    requires AgentMade(g)
    ensures GpuResponses.WellFormed(g)
  {
    var r: Reading, toInt64: real -> GoInt.Int64 :|
      MessageOf(r, toInt64, g) && AgentGpu.DistinctNames(r.nodeList) && AgentGpu.Conversion(toInt64) && MemoryFits(r);
    MessagesAreWellFormed(r, toInt64, g);
  }

  /** In every reachable state, if all GPU telemetry comes from the agent's collector, then in every response no
      average exceeds its maximum, for GPUs and for memory, unless the int64 sum of memory averages underflows. */
  lemma ReportedAveragesAtMostMaxima(steps: seq<Step>, tenantID: string, start: Time, end: Time, i: nat,
                                     v: GpuValues.GpuValue)
    requires forall j, g :: Produce(j, GpuPayload(g)) in steps ==> AgentMade(g)
    requires start <= end && i < |GpuHandler.ResponseOf(After(steps).tables, tenantID, start, end)|
    requires v in GpuHandler.ResponseOf(After(steps).tables, tenantID, start, end)[i].values
    requires var t := After(steps).tables;
             var slot := Slot(GpuHandler.TenantGpus(t, tenantID, start, end), start + i * HOUR);
             var rows := GpuValues.RowsOf(slot, Store.Names(t.rows, tenantID));
             -GoInt.TWO_63 <= GroupTotals.Total(GpuValues.USAGES, rows, v.node).sumMemory
    ensures v.avgUsed <= v.maxUsed && v.avgMemoryGb <= v.maxMemoryGb
  {
    hide *;
    var t := After(steps).tables;
    var hs := GpuHandler.TenantGpus(t, tenantID, start, end);
    forall h | h in hs && h.message.Encoded? ensures GpuResponses.WellFormed(h.message.value) {
      GpuResponses.InWindow(t, tenantID, start, end, h);
      StoredWasCollected(steps, h);
      AgentMadeWellFormed(h.message.value);
    }
    GpuResponses.AveragesAtMostMaxima(t, tenantID, start, end, i, v);
  }

  /** `g` is a message of the collector as above, from memory samples that are not negative. */
  ghost predicate AgentMadeNonNegative(g: GpuTelemetry)
  {
    exists r: Reading, toInt64: real -> GoInt.Int64 ::
      && MessageOf(r, toInt64, g) && AgentGpu.DistinctNames(r.nodeList) && AgentGpu.Conversion(toInt64)
      && MemoryFits(r) && NonNegativeSamples(r.memory)
  }

  lemma AgentMadeNonNegativeMeaning(g: GpuTelemetry)
    requires AgentMadeNonNegative(g)
    ensures AgentMade(g) && forall n :: n in g.nodes ==> n.avgMemoryUsed >= 0
  {
    var r: Reading, toInt64: real -> GoInt.Int64 :|
      && MessageOf(r, toInt64, g) && AgentGpu.DistinctNames(r.nodeList) && AgentGpu.Conversion(toInt64)
      && MemoryFits(r) && NonNegativeSamples(r.memory);
    MessagesAreNonNegative(r, toInt64, g);
    hide MessageOf, MemoryFits, NonNegativeSamples;
  }

  /** From memory samples that are not negative nothing can underflow: then no average exceeds its maximum in any
      response of any reachable state. */
  lemma AveragesAtMostMaximaFromNonNegativeSamples(steps: seq<Step>, tenantID: string, start: Time, end: Time, i: nat,
                                                   v: GpuValues.GpuValue)
    requires forall j, g :: Produce(j, GpuPayload(g)) in steps ==> AgentMadeNonNegative(g)
    requires start <= end && i < |GpuHandler.ResponseOf(After(steps).tables, tenantID, start, end)|
    requires v in GpuHandler.ResponseOf(After(steps).tables, tenantID, start, end)[i].values
    ensures v.avgUsed <= v.maxUsed && v.avgMemoryGb <= v.maxMemoryGb
  {
    assert GoInt.TWO_63 > 0;
    hide *;
    var t := After(steps).tables;
    var hs := GpuHandler.TenantGpus(t, tenantID, start, end);
    var slot := Slot(hs, start + i * HOUR);
    forall j, g | Produce(j, GpuPayload(g)) in steps ensures AgentMade(g) {
      AgentMadeNonNegativeMeaning(g);
    }
    forall h, n | h in slot && h.message.Encoded? && n in h.message.value.nodes ensures n.avgMemoryUsed >= 0 {
      InSlot(t, tenantID, start, end, i, h);
      StoredWasCollected(steps, h);
      AgentMadeNonNegativeMeaning(h.message.value);
    }
    GpuResponses.NoUnderflow(slot, Store.Names(t.rows, tenantID), v.node);
    ReportedAveragesAtMostMaxima(steps, tenantID, start, end, i, v);
  }

  lemma InSlot(t: Tables, tenantID: string, start: Time, end: Time, i: nat, h: History<GpuTelemetry>)
    requires h in Slot(GpuHandler.TenantGpus(t, tenantID, start, end), start + i * HOUR)
    ensures h in t.gpus
  {
    GpuResponses.InWindow(t, tenantID, start, end, h);
  }
}
