/** The values of one GPU usage datapoint: per cluster and node, the greatest maximum and the mean average over the
    histories that contain the node. Floats are modelled by exact numbers. */
module GpuValues {
  import GoInt
  import Seqs
  import Folds
  import opened Grouping
  import GroupTotals
  import opened Tally
  import opened Ordering
  import Figures
  import opened Telemetry
  import FirstErrors
  import opened Reals

  datatype ClusterNode = ClusterNode(clusterName: string, nodeName: string)

  /** The comparison passed to the library sort: by cluster name, then by node name. */
  predicate ClusterNodeLess(a: ClusterNode, b: ClusterNode)
  {
    if a.clusterName != b.clusterName then StringLess(a.clusterName, b.clusterName)
    else StringLess(a.nodeName, b.nodeName)
  }

  lemma ClusterNodeOrder()
    ensures StrictTotalOrder(ClusterNodeLess)
  {
    forall a, b ensures !ClusterNodeLess(a, a) && (a != b ==> ClusterNodeLess(a, b) || ClusterNodeLess(b, a)) {
      Trichotomy(a.clusterName, b.clusterName);
      Trichotomy(a.nodeName, b.nodeName);
    }
    forall a, b, c | ClusterNodeLess(a, b) && ClusterNodeLess(b, c) ensures ClusterNodeLess(a, c) {
      Trichotomy(a.clusterName, c.clusterName);
      if a.clusterName == b.clusterName == c.clusterName {
        Transitive(a.nodeName, b.nodeName, c.nodeName);
      } else if a.clusterName != b.clusterName && b.clusterName != c.clusterName {
        Asymmetric(a.clusterName, b.clusterName);
        Transitive(a.clusterName, b.clusterName, c.clusterName);
      }
    }
  }

  lemma Asymmetric(a: string, b: string)
    requires StringLess(a, b)
    ensures !StringLess(b, a)
  {
    Trichotomy(a, a);
    if StringLess(b, a) {
      Transitive(a, b, a);
    }
  }

  datatype GpuValue = GpuValue(node: ClusterNode, maxUsed: real, avgUsed: real, maxMemoryGb: real, avgMemoryGb: real)

  /** The accumulated figures of a node. Maxima start from zero, so they are never negative. */
  datatype Usage = Usage(maxUsed: NonNegative, sumUsed: real, maxMemory: nat, sumMemory: int)

  function MaxInt(a: int, b: int): int
  {
    if a >= b then a else b
  }

  function Merge(a: Usage, b: Usage): Usage
  {
    Combine((x: NonNegative, y: NonNegative) => MaxReal(x, y) as NonNegative, (x: real, y: real) => x + y,
            (x: nat, y: nat) => MaxInt(x, y) as nat, (x: int, y: int) => x + y, a, b)
  }

  function Combine(maxUsed: (NonNegative, NonNegative) -> NonNegative, addUsed: (real, real) -> real,
                   maxMemory: (nat, nat) -> nat, addMemory: (int, int) -> int, a: Usage, b: Usage): Usage
  {
    Usage(maxUsed(a.maxUsed, b.maxUsed), addUsed(a.sumUsed, b.sumUsed), maxMemory(a.maxMemory, b.maxMemory),
          addMemory(a.sumMemory, b.sumMemory))
  }

  function NoUsage(): Usage
  {
    Usage(0.0, 0.0, 0, 0)
  }

  const USAGES: Folds.Monoid<Usage> := Folds.Monoid(Merge, NoUsage())

  function WrapUsage(u: Usage): Usage
  {
    u.(sumMemory := GoInt.Wrap64(u.sumMemory))
  }

  const USAGE_TOTALS: Accumulator<Usage> := Accumulator(USAGES, WrapUsage)

  lemma UsagesLawful()
    ensures Folds.Lawful(USAGES)
  {
  }

  lemma UsageTotalsSound()
    ensures Sound(USAGE_TOTALS)
  {
    UsagesLawful();
    hide Folds.Lawful;
    forall a, b ensures WrapUsage(Merge(WrapUsage(a), b)) == WrapUsage(Merge(a, b)) {
      GoInt.Wrap64Absorbs(a.sumMemory, b.sumMemory);
    }
  }

  function UsageOf(node: GpuNode): Usage
  {
    Usage(MaxReal(0.0, node.maxGpuUsed), node.avgGpuUsed, MaxInt(0, node.maxMemoryUsed), node.avgMemoryUsed)
  }

  function Mean(u: Usage, n: Positive): Usage
  {
    u.(sumUsed := u.sumUsed / n as real, sumMemory := GoInt.Quot(u.sumMemory, n))
  }

  function InGB(bytes: int): real
  {
    bytes as real / Figures.GB as real
  }

  function ValueOf(cn: ClusterNode, u: Usage): GpuValue
  {
    GpuValue(cn, u.maxUsed, u.sumUsed, InGB(u.maxMemory), InGB(u.sumMemory))
  }

  function NoValue(cn: ClusterNode): GpuValue
  {
    GpuValue(cn, 0.0, 0.0, 0.0, 0.0)
  }

  // ----- rows and errors

  ghost function ClusterName(clusterID: string, names: map<string, string>): string
  {
    if clusterID in names then names[clusterID] else ""
  }

  ghost function Entry(clusterID: string, node: GpuNode, names: map<string, string>): (ClusterNode, Usage)
  {
    (ClusterNode(ClusterName(clusterID, names), node.name), UsageOf(node))
  }

  ghost function RowOf(h: History<GpuTelemetry>, names: map<string, string>): Row<ClusterNode, Usage>
  {
    if h.message.Malformed? then []
    else Seqs.Map((n: GpuNode) => Entry(h.clusterID, n, names), h.message.value.nodes)
  }

  ghost function RowsOf(hs: seq<History<GpuTelemetry>>, names: map<string, string>): seq<Row<ClusterNode, Usage>>
  {
    Seqs.Map((h: History<GpuTelemetry>) => RowOf(h, names), hs)
  }

  /** The listing of all nodes looks the cluster name up for every history, even one without nodes. */
  function ListError(h: History<GpuTelemetry>, names: map<string, string>): Option<Error>
  {
    if h.message.Malformed? then Some(BadMessage)
    else if h.clusterID !in names then Some(NoClusterName(h.clusterID)) else None
  }

  /** The computation of a datapoint looks it up for every node. */
  function NodeError(h: History<GpuTelemetry>, names: map<string, string>): Option<Error>
  {
    if h.message.Malformed? then Some(BadMessage)
    else if h.message.value.nodes != [] && h.clusterID !in names then Some(NoClusterName(h.clusterID)) else None
  }

  ghost function FirstListError(hs: seq<History<GpuTelemetry>>, names: map<string, string>): Option<Error>
  {
    FirstErrors.FirstOf((h: History<GpuTelemetry>) => ListError(h, names), hs)
  }

  ghost function FirstNodeError(hs: seq<History<GpuTelemetry>>, names: map<string, string>): Option<Error>
  {
    FirstErrors.FirstOf((h: History<GpuTelemetry>) => NodeError(h, names), hs)
  }

  lemma NodeErrorNext(hs: seq<History<GpuTelemetry>>, i: nat, names: map<string, string>)
    requires i < |hs| && FirstNodeError(hs[..i], names).None?
    ensures FirstNodeError(hs[..i + 1], names) == NodeError(hs[i], names)
    ensures NodeError(hs[i], names).Some? ==> FirstNodeError(hs, names) == NodeError(hs[i], names)
  {
    var err := (h: History<GpuTelemetry>) => NodeError(h, names);
    FirstErrors.FirstOfNext(err, hs, i);
    if NodeError(hs[i], names).Some? {
      FirstErrors.FirstOfPrefix(err, hs, i + 1);
    }
  }

  lemma ListErrorNext(hs: seq<History<GpuTelemetry>>, i: nat, names: map<string, string>)
    requires i < |hs| && FirstListError(hs[..i], names).None?
    ensures FirstListError(hs[..i + 1], names) == ListError(hs[i], names)
    ensures ListError(hs[i], names).Some? ==> FirstListError(hs, names) == ListError(hs[i], names)
  {
    var err := (h: History<GpuTelemetry>) => ListError(h, names);
    FirstErrors.FirstOfNext(err, hs, i);
    if ListError(hs[i], names).Some? {
      FirstErrors.FirstOfPrefix(err, hs, i + 1);
    }
  }

  // ----- the declarative meaning of a datapoint

  /** A node's value: its greatest maxima, and its averages over the histories that contain it. */
  ghost function Reported(rows: seq<Row<ClusterNode, Usage>>, cn: ClusterNode): GpuValue
  {
    if Count(rows, cn) == 0 then NoValue(cn)
    else ValueOf(cn, Mean(WrapUsage(GroupTotals.Total(USAGES, rows, cn)), Count(rows, cn)))
  }

  ghost function Values(rows: seq<Row<ClusterNode, Usage>>, cns: seq<ClusterNode>): seq<GpuValue>
  {
    Seqs.Map((cn: ClusterNode) => Reported(rows, cn), cns)
  }

  // ----- the loops

  /** The update of a statistic by one node, field by field. */
  function Accumulate(s: Stat<Usage>, first: bool, node: GpuNode): Stat<Usage>
  {
    Stat(if first then s.hsCount + 1 else s.hsCount,
         Usage(MaxReal(s.figures.maxUsed, node.maxGpuUsed),
               s.figures.sumUsed + node.avgGpuUsed,
               MaxInt(s.figures.maxMemory, node.maxMemoryUsed),
               GoInt.Wrap64(s.figures.sumMemory + node.avgMemoryUsed)))
  }

  lemma AccumulateIsAddNode(s: Stat<Usage>, first: bool, node: GpuNode)
    ensures Accumulate(s, first, node) == AddNode(USAGE_TOTALS, s, first, UsageOf(node))
  {
  }

  lemma RowsNext(hs: seq<History<GpuTelemetry>>, i: nat, names: map<string, string>)
    requires i < |hs|
    ensures RowsOf(hs[..i + 1], names) == RowsOf(hs[..i], names) + [RowOf(hs[i], names)]
  {
    hide RowOf;
  }

  method Group(hs: seq<History<GpuTelemetry>>, names: map<string, string>)
    returns (r: Result<map<ClusterNode, Stat<Usage>>>)
    ensures FirstNodeError(hs, names) == if r.Failure? then Some(r.error) else None
    ensures r.Success? ==> Tallies(USAGE_TOTALS, r.value, RowsOf(hs, names))
  {
    var stats: map<ClusterNode, Stat<Usage>> := map[];
    NoTallies<ClusterNode, Usage>(USAGE_TOTALS);
    assert hs[..0] == [] && RowsOf([], names) == [] && FirstNodeError([], names).None?;
    hide *;
    for i := 0 to |hs|
      invariant FirstNodeError(hs[..i], names).None?
      invariant Tallies(USAGE_TOTALS, stats, RowsOf(hs[..i], names))
    {
      NodeErrorNext(hs, i, names);
      RowsNext(hs, i, names);
      var grouped := GroupHistory(stats, hs[i], names, RowsOf(hs[..i], names));
      if grouped.Failure? {
        return Failure(grouped.error);
      }
      stats := grouped.value;
    }
    assert hs[..|hs|] == hs;
    return Success(stats);
  }

  function KeyOf(h: History<GpuTelemetry>, node: GpuNode, names: map<string, string>): Result<ClusterNode>
  {
    if h.clusterID in names then Success(ClusterNode(names[h.clusterID], node.name))
    else Failure(NoClusterName(h.clusterID))
  }

  method GroupHistory(stats: map<ClusterNode, Stat<Usage>>, h: History<GpuTelemetry>, names: map<string, string>,
                      ghost rows: seq<Row<ClusterNode, Usage>>)
    returns (r: Result<map<ClusterNode, Stat<Usage>>>)
    requires Tallies(USAGE_TOTALS, stats, rows)
    ensures NodeError(h, names) == if r.Failure? then Some(r.error) else None
    ensures r.Success? ==> Tallies(USAGE_TOTALS, r.value, rows + [RowOf(h, names)])
  {
    if h.message.Malformed? {
      return Failure(BadMessage);
    }
    var nodes := h.message.value.nodes;
    var key := (n: GpuNode) => KeyOf(h, n, names);
    assert RowFor(key, UsageOf, nodes, RowOf(h, names));
    assert nodes != [] ==> nodes[0] in nodes;
    hide Tallies, RowFor, Sound, Accumulate, AddNode, UsageOf, RowOf;
    UsageTotalsSound();
    forall s, first, n ensures Accumulate(s, first, n) == AddNode(USAGE_TOTALS, s, first, UsageOf(n)) {
      AccumulateIsAddNode(s, first, n);
    }
    BlankStat();
    r := GroupNodes(USAGE_TOTALS, Stat(0, NoUsage()), key, UsageOf, Accumulate, stats, nodes, rows, RowOf(h, names));
  }

  lemma BlankStat()
    ensures USAGE_TOTALS.m.zero == NoUsage()
  {
  }

  function ValueIn(stats: map<ClusterNode, Stat<Usage>>, cn: ClusterNode): GpuValue
  {
    if cn in stats then ValueOf(cn, stats[cn].figures) else NoValue(cn)
  }

  /** Computes a datapoint with the loops of the handler; the result is the declarative meaning above. */
  method CalculateGPUUsageValues(hs: seq<History<GpuTelemetry>>, names: map<string, string>,
                                 allClusterNodes: seq<ClusterNode>)
    returns (r: Result<seq<GpuValue>>)
    ensures FirstNodeError(hs, names) == if r.Failure? then Some(r.error) else None
    ensures r.Success? ==> r.value == Values(RowsOf(hs, names), allClusterNodes)
  {
    hide *;
    var grouped := Group(hs, names);
    if grouped.Failure? {
      return Failure(grouped.error);
    }
    TalliesPositive(USAGE_TOTALS, grouped.value, RowsOf(hs, names));
    var stats := AverageAll(Mean, grouped.value);
    StatsAreReported(RowsOf(hs, names), grouped.value, stats, allClusterNodes);
    var vals := LayOut(stats, allClusterNodes);
    return Success(vals);
  }

  method LayOut(stats: map<ClusterNode, Stat<Usage>>, allClusterNodes: seq<ClusterNode>) returns (vals: seq<GpuValue>)
    ensures vals == Seqs.Map((cn: ClusterNode) => ValueIn(stats, cn), allClusterNodes)
  {
    hide ValueOf, NoValue;
    vals := [];
    for i := 0 to |allClusterNodes|
      invariant vals == Seqs.Map((cn: ClusterNode) => ValueIn(stats, cn), allClusterNodes[..i])
    {
      var cn := allClusterNodes[i];
      if cn !in stats {
        vals := vals + [NoValue(cn)];
      } else {
        vals := vals + [ValueOf(cn, stats[cn].figures)];
      }
    }
    assert allClusterNodes[..|allClusterNodes|] == allClusterNodes;
  }

  lemma StatsAreReported(rows: seq<Row<ClusterNode, Usage>>, tallies: map<ClusterNode, Stat<Usage>>,
                         stats: map<ClusterNode, Stat<Usage>>, cns: seq<ClusterNode>)
    requires Tallies(USAGE_TOTALS, tallies, rows)
    requires forall k :: k in tallies ==> tallies[k].hsCount >= 1
    requires stats == map k | k in tallies :: Averaged(Mean, tallies[k])
    ensures Values(rows, cns) == Seqs.Map((cn: ClusterNode) => ValueIn(stats, cn), cns)
  {
    forall cn ensures Reported(rows, cn) == ValueIn(stats, cn) {
      hide ValueOf, NoValue, WrapUsage, Mean, GroupTotals.Total, Count;
    }
    hide Reported, ValueIn;
  }

  /** The global list of cluster nodes: every node of every history, each once, in ascending order. */
  method GetAllClusterNodes(hs: seq<History<GpuTelemetry>>, names: map<string, string>)
    returns (r: Result<seq<ClusterNode>>)
    ensures StrictTotalOrder(ClusterNodeLess)
    ensures FirstListError(hs, names) == if r.Failure? then Some(r.error) else None
    ensures r.Success? ==> r.value == Sorted(ClusterNodeLess, Keys(RowsOf(hs, names)))
  {
    ClusterNodeOrder();
    assert hs[..0] == [] && FirstListError([], names).None? && Keys(RowsOf([], names)) == {};
    hide *;
    var cnMap: set<ClusterNode> := {};
    for i := 0 to |hs|
      invariant FirstListError(hs[..i], names).None?
      invariant cnMap == Keys(RowsOf(hs[..i], names))
    {
      ListErrorNext(hs, i, names);
      var keys := NodeKeys(hs[i], names);
      if keys.Failure? {
        return Failure(keys.error);
      }
      cnMap := cnMap + keys.value;
      RowsNext(hs, i, names);
      KeysAddRow(RowsOf(hs[..i], names), RowOf(hs[i], names));
    }
    assert hs[..|hs|] == hs;
    var cns := Enumerate(cnMap);
    var sorted := Sort(ClusterNodeLess, cns);
    return Success(sorted);
  }

  method NodeKeys(h: History<GpuTelemetry>, names: map<string, string>) returns (r: Result<set<ClusterNode>>)
    ensures ListError(h, names) == if r.Failure? then Some(r.error) else None
    ensures r.Success? ==> r.value == RowKeys(RowOf(h, names))
  {
    if h.message.Malformed? {
      return Failure(BadMessage);
    }
    if h.clusterID !in names {
      return Failure(NoClusterName(h.clusterID));
    }
    var cname, nodes := names[h.clusterID], h.message.value.nodes;
    var keys: set<ClusterNode> := {};
    ghost var row, key := RowOf(h, names), (n: GpuNode) => KeyOf(h, n, names);
    assert RowFor(key, UsageOf, nodes, row);
    assert ListError(h, names).None?;
    hide RowFor, RowKeys, RowOf, UsageOf;
    RowWhole(key, UsageOf, nodes, row);
    NoKeys(row);
    for j := 0 to |nodes|
      invariant keys == RowKeys(row[..j])
    {
      RowPrefix(key, UsageOf, nodes, row, j);
      keys := keys + {ClusterNode(cname, nodes[j].name)};
    }
    return Success(keys);
  }
}
