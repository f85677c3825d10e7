/** Snapshot values read off the stored nodes themselves: which nodes are in a group, how many histories contain it,
    and what the reported figures are in their terms. */
module SnapshotMeaning {
  import opened GoInt
  import opened Seqs
  import opened Folds
  import opened Grouping
  import opened GroupTotals
  import Figures
  import opened Telemetry
  import opened SnapshotValues
  import opened SnapshotTheorems

  /** Whether a node belongs to a group: its product, or "unknown" without one, or else the name of its cluster. */
  predicate InGroup(h: History<Snapshot>, n: SnapshotNode, groupBy: GroupBy, names: map<string, string>, k: string)
  {
    if groupBy.ByProduct? then n.product == Some(k) || (n.product.None? && k == "unknown")
    else h.clusterID in names && names[h.clusterID] == k
  }

  /** The nodes of a history that belong to a group. */
  ghost function NodesIn(h: History<Snapshot>, groupBy: GroupBy, names: map<string, string>, k: string)
    : seq<SnapshotNode>
  {
    if h.message.Malformed? then []
    else Filter((n: SnapshotNode) => InGroup(h, n, groupBy, names, k), h.message.value.nodes)
  }

  /** The nodes of all histories that belong to a group. */
  ghost function GroupNodes(hs: seq<History<Snapshot>>, groupBy: GroupBy, names: map<string, string>, k: string)
    : seq<SnapshotNode>
  {
    if hs == [] then []
    else GroupNodes(hs[..|hs| - 1], groupBy, names, k) + NodesIn(hs[|hs| - 1], groupBy, names, k)
  }

  ghost predicate HasNodeIn(h: History<Snapshot>, groupBy: GroupBy, names: map<string, string>, k: string)
  {
    exists n :: n in NodesIn(h, groupBy, names, k)
  }

  /** The number of histories with a node in a group. */
  ghost function HistoriesWith(hs: seq<History<Snapshot>>, groupBy: GroupBy, names: map<string, string>, k: string): nat
  {
    |Filter((h: History<Snapshot>) => HasNodeIn(h, groupBy, names, k), hs)|
  }

  /** Every node can be grouped. */
  ghost predicate Groupable(hs: seq<History<Snapshot>>, groupBy: GroupBy, names: map<string, string>)
  {
    !groupBy.Unknown? && (groupBy.ByProduct? || forall h :: h in hs ==> h.clusterID in names)
  }

  lemma RowNodes(h: History<Snapshot>, groupBy: GroupBy, names: map<string, string>, k: string)
    requires Groupable([h], groupBy, names)
    ensures Of(RowOf(h, groupBy, names), k) == Map(FiguresOf, NodesIn(h, groupBy, names, k))
    ensures Hit(RowOf(h, groupBy, names), k) == if HasNodeIn(h, groupBy, names, k) then 1 else 0
  {
    assert h in [h];
    if h.message.Encoded? {
      OfMap((n: SnapshotNode) => Entry(h.clusterID, n, groupBy, names).0, FiguresOf,
            (n: SnapshotNode) => InGroup(h, n, groupBy, names, k), h.message.value.nodes, RowOf(h, groupBy, names), k);
    }
    var ns := NodesIn(h, groupBy, names, k);
    assert ns != [] ==> ns[0] in ns;
  }

  lemma RowsOfLast(hs: seq<History<Snapshot>>, groupBy: GroupBy, names: map<string, string>)
    requires hs != []
    ensures var (init, h) := (hs[..|hs| - 1], hs[|hs| - 1]);
            RowsOf(hs, groupBy, names) == RowsOf(init, groupBy, names) + [RowOf(h, groupBy, names)]
  {
    hide RowOf;
  }

  /** The entries and the count behind a group are those of its nodes and of the histories with one of them. */
  lemma {:induction false} MembersAreNodes(hs: seq<History<Snapshot>>, groupBy: GroupBy, names: map<string, string>,
                                           k: string)
    requires Groupable(hs, groupBy, names)
    ensures Members(RowsOf(hs, groupBy, names), k) == Map(FiguresOf, GroupNodes(hs, groupBy, names, k))
    ensures Count(RowsOf(hs, groupBy, names), k) == HistoriesWith(hs, groupBy, names, k)
    decreases |hs|
  {
    if hs == [] {
      assert RowsOf(hs, groupBy, names) == [];
    } else {
      var init, h := hs[..|hs| - 1], hs[|hs| - 1];
      assert h in hs;
      RowsOfLast(hs, groupBy, names);
      hide RowOf, RowsOf, Of, FiguresOf, NodesIn, HasNodeIn, Hit;
      MembersAreNodes(init, groupBy, names, k);
      RowNodes(h, groupBy, names, k);
      AddRow(RowsOf(init, groupBy, names), RowOf(h, groupBy, names), k);
      hide Members, Count;
      MapConcat(FiguresOf, GroupNodes(init, groupBy, names, k), NodesIn(h, groupBy, names, k));
    }
  }

  lemma {:induction false} SumOfNodes(ns: seq<SnapshotNode>)
    ensures var t := Sum(Figures.FIGURES, Map(FiguresOf, ns));
            && t.nodes == |ns|
            && t.gpus == SumBy((n: SnapshotNode) => n.gpuCapacity, ns)
            && t.memory == SumBy((n: SnapshotNode) => n.memoryCapacity, ns)
            && t.occupied == SumBy((n: SnapshotNode) => n.gpuOccupancy, ns)
            && t.pods == SumBy((n: SnapshotNode) => n.podCount, ns)
  {
    if ns == [] {
      assert Map(FiguresOf, ns) == [];
    } else {
      var init, last := ns[..|ns| - 1], ns[|ns| - 1];
      SumOfNodes(init);
      assert Map(FiguresOf, ns) == Map(FiguresOf, init) + [FiguresOf(last)];
      SumAppend(Figures.FIGURES, Map(FiguresOf, init), FiguresOf(last));
      PlusIs(Sum(Figures.FIGURES, Map(FiguresOf, init)), FiguresOf(last));
      hide Sum;
    }
  }

  /** The totals of a group are the number of its nodes and the sums of their fields. */
  lemma TotalsAreNodeSums(hs: seq<History<Snapshot>>, groupBy: GroupBy, names: map<string, string>, k: string)
    requires Groupable(hs, groupBy, names)
    ensures var (t, ns) := (Total(Figures.FIGURES, RowsOf(hs, groupBy, names), k), GroupNodes(hs, groupBy, names, k));
            && t.nodes == |ns|
            && t.gpus == SumBy((n: SnapshotNode) => n.gpuCapacity, ns)
            && t.memory == SumBy((n: SnapshotNode) => n.memoryCapacity, ns)
            && t.occupied == SumBy((n: SnapshotNode) => n.gpuOccupancy, ns)
            && t.pods == SumBy((n: SnapshotNode) => n.podCount, ns)
  {
    MembersAreNodes(hs, groupBy, names, k);
    SumOfNodes(GroupNodes(hs, groupBy, names, k));
    hide Sum, Members, RowsOf, GroupNodes;
  }

  /** What a figure of a group comes to: the int32 sum over the number of histories, rounded toward zero. */
  ghost function Average(f: SnapshotNode -> int, ns: seq<SnapshotNode>, c: nat): int
  {
    if c == 0 then 0 else Quot(Wrap32(SumBy(f, ns)), c)
  }

  /** The figures reported for a group with nodes `ns` in `c` histories. */
  ghost predicate IsReported(v: Figures.Figures, ns: seq<SnapshotNode>, c: nat)
  {
    && v.nodes == Average((n: SnapshotNode) => 1, ns, c)
    && v.gpus == Average((n: SnapshotNode) => n.gpuCapacity, ns, c)
    && v.occupied == Average((n: SnapshotNode) => n.gpuOccupancy, ns, c)
    && v.pods == Average((n: SnapshotNode) => n.podCount, ns, c)
    && v.memory
       == if c == 0 then 0
          else Wrap32(Quot(Wrap64(SumBy((n: SnapshotNode) => n.memoryCapacity, ns)), c * 0x4000_0000))
  }

  lemma {:induction false} SumOfOnes(ns: seq<SnapshotNode>)
    ensures SumBy((n: SnapshotNode) => 1, ns) == |ns|
  {
    if ns != [] {
      SumOfOnes(ns[..|ns| - 1]);
    }
  }

  /** A group's reported figures, read off its nodes: the number of nodes and the sums of their GPU capacities,
      memory capacities, occupied GPUs and pods, each over the number of histories with a node of the group. */
  lemma ReportedIsOfNodes(hs: seq<History<Snapshot>>, groupBy: GroupBy, names: map<string, string>, k: string)
    requires Groupable(hs, groupBy, names)
    ensures IsReported(Reported(RowsOf(hs, groupBy, names), k), GroupNodes(hs, groupBy, names, k),
                       HistoriesWith(hs, groupBy, names, k))
    ensures k in Keys(RowsOf(hs, groupBy, names)) <==> HistoriesWith(hs, groupBy, names, k) > 0
  {
    var rows := RowsOf(hs, groupBy, names);
    TotalsAreNodeSums(hs, groupBy, names, k);
    MembersAreNodes(hs, groupBy, names, k);
    Present(rows, k);
    SumOfOnes(GroupNodes(hs, groupBy, names, k));
    hide RowsOf, GroupNodes, HistoriesWith, Members, Total, Count, Keys, Wrap32, Wrap64, Quot, SumBy;
    if Count(rows, k) > 0 {
      ReportedMeaning(rows, k);
      assert Figures.GB == 0x4000_0000;
    }
  }
}
