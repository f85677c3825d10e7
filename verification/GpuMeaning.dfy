/** GPU usage values read off the stored nodes themselves. */
module GpuMeaning {
  import opened GoInt
  import opened Seqs
  import opened Folds
  import opened Grouping
  import opened GroupTotals
  import opened Telemetry
  import opened GpuValues
  import opened GpuTheorems

  /** The entries of a history for a node: those with its name, if the history's cluster has the cluster name. */
  ghost function EntriesIn(h: History<GpuTelemetry>, names: map<string, string>, cn: ClusterNode): seq<GpuNode>
  {
    if h.message.Malformed? || h.clusterID !in names || names[h.clusterID] != cn.clusterName then []
    else Filter((n: GpuNode) => n.name == cn.nodeName, h.message.value.nodes)
  }

  /** The entries of all histories for a node. */
  ghost function NodeEntries(hs: seq<History<GpuTelemetry>>, names: map<string, string>, cn: ClusterNode): seq<GpuNode>
  {
    if hs == [] then [] else NodeEntries(hs[..|hs| - 1], names, cn) + EntriesIn(hs[|hs| - 1], names, cn)
  }

  ghost predicate Mentions(h: History<GpuTelemetry>, names: map<string, string>, cn: ClusterNode)
  {
    exists n :: n in EntriesIn(h, names, cn)
  }

  /** The number of histories that mention a node. */
  ghost function HistoriesWith(hs: seq<History<GpuTelemetry>>, names: map<string, string>, cn: ClusterNode): nat
  {
    |Filter((h: History<GpuTelemetry>) => Mentions(h, names, cn), hs)|
  }

  ghost predicate AllNamed(hs: seq<History<GpuTelemetry>>, names: map<string, string>)
  {
    forall h :: h in hs ==> h.clusterID in names
  }

  lemma RowEntries(h: History<GpuTelemetry>, names: map<string, string>, cn: ClusterNode)
    requires h.clusterID in names
    ensures Of(RowOf(h, names), cn) == Map(UsageOf, EntriesIn(h, names, cn))
    ensures Hit(RowOf(h, names), cn) == if Mentions(h, names, cn) then 1 else 0
  {
    hide UsageOf;
    if h.message.Encoded? {
      var inCluster := names[h.clusterID] == cn.clusterName;
      var p := (n: GpuNode) => inCluster && n.name == cn.nodeName;
      OfMap((n: GpuNode) => Entry(h.clusterID, n, names).0, UsageOf, p, h.message.value.nodes, RowOf(h, names), cn);
      if inCluster {
        SameFilter(p, (n: GpuNode) => n.name == cn.nodeName, h.message.value.nodes);
      } else {
        FilterNone(p, h.message.value.nodes);
      }
    }
    var ns := EntriesIn(h, names, cn);
    assert ns != [] ==> ns[0] in ns;
  }

  lemma {:induction false} SameFilter<T(!new)>(p: T -> bool, q: T -> bool, s: seq<T>)
    requires forall x :: p(x) <==> q(x)
    ensures Filter(p, s) == Filter(q, s)
    decreases |s|
  {
    if s != [] {
      SameFilter(p, q, s[..|s| - 1]);
    }
  }

  /** The entries and the count behind a node are those of its entries and of the histories that mention it. */
  lemma {:induction false} MembersAreEntries(hs: seq<History<GpuTelemetry>>, names: map<string, string>,
                                             cn: ClusterNode)
    requires AllNamed(hs, names)
    ensures Members(RowsOf(hs, names), cn) == Map(UsageOf, NodeEntries(hs, names, cn))
    ensures Count(RowsOf(hs, names), cn) == HistoriesWith(hs, names, cn)
    decreases |hs|
  {
    if hs == [] {
      assert RowsOf(hs, names) == [];
    } else {
      var init, h := hs[..|hs| - 1], hs[|hs| - 1];
      assert h in hs;
      RowsOfLast(hs, names);
      hide RowOf, RowsOf, Of, UsageOf, EntriesIn, Mentions, Hit;
      MembersAreEntries(init, names, cn);
      RowEntries(h, names, cn);
      AddRow(RowsOf(init, names), RowOf(h, names), cn);
      hide Members, Count;
      MapConcat(UsageOf, NodeEntries(init, names, cn), EntriesIn(h, names, cn));
    }
  }

  lemma RowsOfLast(hs: seq<History<GpuTelemetry>>, names: map<string, string>)
    requires hs != []
    ensures RowsOf(hs, names) == RowsOf(hs[..|hs| - 1], names) + [RowOf(hs[|hs| - 1], names)]
  {
    hide RowOf;
  }

  lemma {:induction false} SumOfEntries(ns: seq<GpuNode>)
    ensures var t := Sum(USAGES, Map(UsageOf, ns));
            && t.sumUsed == SumByReal((n: GpuNode) => n.avgGpuUsed, ns)
            && t.sumMemory == SumBy((n: GpuNode) => n.avgMemoryUsed, ns)
  {
    if ns == [] {
      assert Map(UsageOf, ns) == [];
    } else {
      var init, last := ns[..|ns| - 1], ns[|ns| - 1];
      SumOfEntries(init);
      assert Map(UsageOf, ns) == Map(UsageOf, init) + [UsageOf(last)];
      SumAppend(USAGES, Map(UsageOf, init), UsageOf(last));
      MergeAdds(Sum(USAGES, Map(UsageOf, init)), UsageOf(last));
      hide Sum;
    }
  }

  lemma {:induction false} MaximumOfEntries(ns: seq<GpuNode>)
    ensures var t := Sum(USAGES, Map(UsageOf, ns));
            && (forall n :: n in ns ==> n.maxGpuUsed <= t.maxUsed && n.maxMemoryUsed <= t.maxMemory)
            && (t.maxUsed == 0.0 || exists n :: n in ns && n.maxGpuUsed == t.maxUsed)
            && (t.maxMemory == 0 || exists n :: n in ns && n.maxMemoryUsed == t.maxMemory)
  {
    if ns == [] {
      assert Map(UsageOf, ns) == [];
    } else {
      var init, last := ns[..|ns| - 1], ns[|ns| - 1];
      MaximumOfEntries(init);
      assert ns == init + [last] && last in ns;
      assert Map(UsageOf, ns) == Map(UsageOf, init) + [UsageOf(last)];
      SumAppend(USAGES, Map(UsageOf, init), UsageOf(last));
      MergeMaxima(Sum(USAGES, Map(UsageOf, init)), last);
      hide Sum, USAGES;
    }
  }

  lemma MergeMaxima(u: Usage, n: GpuNode)
    ensures var m := USAGES.plus(u, UsageOf(n));
            && u.maxUsed <= m.maxUsed && n.maxGpuUsed <= m.maxUsed
            && (m.maxUsed == 0.0 || m.maxUsed == u.maxUsed || m.maxUsed == n.maxGpuUsed)
            && u.maxMemory <= m.maxMemory && n.maxMemoryUsed <= m.maxMemory
            && (m.maxMemory == 0 || m.maxMemory == u.maxMemory || m.maxMemory == n.maxMemoryUsed)
  {
  }

  /** The averages of a node, over the `c` histories that mention it: the mean of its GPU averages, and of its memory
      averages rounded toward zero to bytes and given in GB. */
  ghost predicate AveragesOf(v: GpuValue, ns: seq<GpuNode>, c: nat)
  {
    if c == 0 then v.avgUsed == 0.0 && v.avgMemoryGb == 0.0
    else
      && v.avgUsed * c as real == SumByReal((n: GpuNode) => n.avgGpuUsed, ns)
      && v.avgMemoryGb * 1_073_741_824.0 == Quot(Wrap64(SumBy((n: GpuNode) => n.avgMemoryUsed, ns)), c) as real
  }

  /** The maxima of a node: the greatest of its maxima, or zero if none is greater; memory is given in GB. */
  ghost predicate MaximaOf(v: GpuValue, ns: seq<GpuNode>)
  {
    && v.maxUsed >= 0.0 && v.maxMemoryGb >= 0.0
    && (forall n :: n in ns ==> n.maxGpuUsed <= v.maxUsed)
    && (v.maxUsed == 0.0 || exists n :: n in ns && n.maxGpuUsed == v.maxUsed)
    && (forall n :: n in ns ==> n.maxMemoryUsed as real <= v.maxMemoryGb * 1_073_741_824.0)
    && (v.maxMemoryGb == 0.0 || exists n :: n in ns && n.maxMemoryUsed as real == v.maxMemoryGb * 1_073_741_824.0)
  }

  lemma InGBMeaning(bytes: int)
    ensures InGB(bytes) * 1_073_741_824.0 == bytes as real
    ensures InGB(bytes) == 0.0 <==> bytes == 0
    ensures InGB(bytes) >= 0.0 <==> bytes >= 0
  {
  }

  lemma ReportedFields(rows: Rows, cn: ClusterNode)
    ensures var (t, c, v) := (Total(USAGES, rows, cn), Count(rows, cn), Reported(rows, cn));
            && (c == 0 ==> v == NoValue(cn))
            && (c > 0 ==>
                  && v.maxUsed == t.maxUsed && v.avgUsed * c as real == t.sumUsed
                  && v.maxMemoryGb == InGB(t.maxMemory) && v.avgMemoryGb == InGB(Quot(Wrap64(t.sumMemory), c)))
  {
    hide Total, Count, InGB, Quot, Wrap64;
    if Count(rows, cn) > 0 {
      Divides(Total(USAGES, rows, cn).sumUsed, Count(rows, cn) as real);
    }
  }

  lemma Divides(x: real, d: real)
    requires d > 0.0
    ensures x / d * d == x
  {
  }

  lemma NoValueIsZero(cn: ClusterNode)
    ensures var v := NoValue(cn); v.maxUsed == v.avgUsed == v.maxMemoryGb == v.avgMemoryGb == 0.0
  {
  }

  /** A node's reported averages, read off its entries. */
  lemma AveragesAreOfEntries(hs: seq<History<GpuTelemetry>>, names: map<string, string>, cn: ClusterNode)
    requires AllNamed(hs, names)
    ensures AveragesOf(Reported(RowsOf(hs, names), cn), NodeEntries(hs, names, cn), HistoriesWith(hs, names, cn))
  {
    hide RowsOf, NodeEntries, HistoriesWith, Members, Count, Total, Sum, UsageOf, Quot, Wrap64, InGB, SumBy, SumByReal,
      Reported, NoValue;
    var rows := RowsOf(hs, names);
    MembersAreEntries(hs, names, cn);
    SumOfEntries(NodeEntries(hs, names, cn));
    TotalIs(rows, cn);
    ReportedFields(rows, cn);
    NoValueIsZero(cn);
    if Count(rows, cn) > 0 {
      InGBMeaning(Quot(Wrap64(Total(USAGES, rows, cn).sumMemory), Count(rows, cn)));
    }
  }

  /** A node's reported maxima, read off its entries. */
  lemma MaximaAreOfEntries(hs: seq<History<GpuTelemetry>>, names: map<string, string>, cn: ClusterNode)
    requires AllNamed(hs, names)
    ensures MaximaOf(Reported(RowsOf(hs, names), cn), NodeEntries(hs, names, cn))
  {
    hide RowsOf, NodeEntries, HistoriesWith, Members, Count, Total, Sum, UsageOf, Quot, Wrap64, InGB, Reported, NoValue;
    var rows, ns := RowsOf(hs, names), NodeEntries(hs, names, cn);
    MembersAreEntries(hs, names, cn);
    Present(rows, cn);
    TotalIs(rows, cn);
    ReportedFields(rows, cn);
    NoValueIsZero(cn);
    MaximumOfEntries(ns);
    InGBMeaning(Total(USAGES, rows, cn).maxMemory);
    assert Count(rows, cn) == 0 ==> ns == [];
  }
}
