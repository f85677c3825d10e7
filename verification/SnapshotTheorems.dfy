/** What a snapshot response means, over all inputs of `CalculateSnapshotValues`. */
module SnapshotTheorems {
  import opened GoInt
  import opened Seqs
  import opened Folds
  import opened Grouping
  import opened GroupTotals
  import Ordering
  import opened Figures
  import opened Telemetry
  import opened SnapshotValues

  type Rows = seq<Row<string, Figures>>

  // ----- order independence

  /** A history up to the order of its nodes. */
  ghost function Shape(h: History<Snapshot>): (string, Option<multiset<SnapshotNode>>)
  {
    (h.clusterID, if h.message.Malformed? then None else Some(multiset(h.message.value.nodes)))
  }

  /** The same histories in any order, with the nodes of every snapshot in any order. */
  ghost predicate SameHistories(hs: seq<History<Snapshot>>, hs': seq<History<Snapshot>>)
  {
    multiset(Map(Shape, hs)) == multiset(Map(Shape, hs'))
  }

  lemma RowsPermute(hs: seq<History<Snapshot>>, hs': seq<History<Snapshot>>, groupBy: GroupBy,
                    names: map<string, string>)
    requires SameHistories(hs, hs')
    ensures SameUpToOrder(RowsOf(hs, groupBy, names), RowsOf(hs', groupBy, names))
  {
    var bag := (h: History<Snapshot>) => Bag(RowOf(h, groupBy, names));
    forall h, h' | h in hs && h' in hs' && Shape(h) == Shape(h') ensures bag(h) == bag(h') {
      if h.message.Encoded? {
        MapPermutes((n: SnapshotNode) => Entry(h.clusterID, n, groupBy, names),
                    h.message.value.nodes, h'.message.value.nodes);
      }
    }
    MapFactors(Shape, bag, hs, hs');
    assert Map(Bag, RowsOf(hs, groupBy, names)) == Map(bag, hs);
    assert Map(Bag, RowsOf(hs', groupBy, names)) == Map(bag, hs');
  }

  lemma ReportedOrderIndependent(rows: Rows, rows': Rows, k: string)
    requires SameUpToOrder(rows, rows')
    ensures Reported(rows, k) == Reported(rows', k)
  {
    hide WrapTotals, InGB, Mean, Zeros, Total, Count, SameUpToOrder, Lawful;
    FiguresLawful();
    OrderIndependent(rows, rows', k);
    TotalOrderIndependent(FIGURES, rows, rows', k);
  }

  /** The values of a datapoint do not depend on the order of its histories or of the nodes in them. */
  lemma ValuesOrderIndependent(hs: seq<History<Snapshot>>, hs': seq<History<Snapshot>>,
                               groupBy: GroupBy, names: map<string, string>, gvals: seq<string>)
    requires SameHistories(hs, hs')
    ensures Values(RowsOf(hs, groupBy, names), groupBy, gvals) == Values(RowsOf(hs', groupBy, names), groupBy, gvals)
    ensures Keys(RowsOf(hs, groupBy, names)) == Keys(RowsOf(hs', groupBy, names))
  {
    var rows, rows' := RowsOf(hs, groupBy, names), RowsOf(hs', groupBy, names);
    RowsPermute(hs, hs', groupBy, names);
    hide RowsOf, SameHistories, Reported, Keys, SumOver, WrapValue;
    KeysOrderIndependent(rows, rows');
    forall k ensures Reported(rows, k) == Reported(rows', k) {
      ReportedOrderIndependent(rows, rows', k);
    }
    assert AllReported(rows) == AllReported(rows');
    assert Map((k: string) => Value(k, Reported(rows, k)), gvals)
        == Map((k: string) => Value(k, Reported(rows', k)), gvals);
  }

  // ----- ungrouped is the sum of the clusters

  ghost function SumOfValues(vs: seq<Value>): Figures
  {
    SumAlong(FIGURES, (v: Value) => v.figures, vs)
  }

  lemma SameRows(hs: seq<History<Snapshot>>, names: map<string, string>)
    ensures RowsOf(hs, Unspecified, names) == RowsOf(hs, ByCluster, names)
  {
    forall h | h in hs ensures RowOf(h, Unspecified, names) == RowOf(h, ByCluster, names) {
      if h.message.Encoded? {
        assert forall n :: Entry(h.clusterID, n, Unspecified, names) == Entry(h.clusterID, n, ByCluster, names);
      }
    }
  }

  lemma {:induction false} SumOfGroupedValues(rows: Rows, gvals: seq<string>)
    ensures SumOfValues(Values(rows, ByCluster, gvals)) == SumAlong(FIGURES, (k: string) => Reported(rows, k), gvals)
  {
    hide Reported, SumAlong;
    var vs := Values(rows, ByCluster, gvals);
    SumAlongIsSum(FIGURES, (v: Value) => v.figures, vs);
    SumAlongIsSum(FIGURES, (k: string) => Reported(rows, k), gvals);
    assert Map((v: Value) => v.figures, vs) == Map((k: string) => Reported(rows, k), gvals);
  }

  lemma AtIsReported(rows: Rows, k: string)
    ensures Reported(rows, k) == At(FIGURES, AllReported(rows), k)
  {
    hide Keys, InGB, Mean, WrapTotals, Total, Zeros;
    Present(rows, k);
  }

  /** The single value of an ungrouped datapoint is, field by field and rounding included, the int32 sum of the
      values of the same bucket grouped by cluster, for every key list that covers the bucket. */
  lemma UngroupedIsSumOfClusters(hs: seq<History<Snapshot>>, names: map<string, string>, gvals: seq<string>)
    requires Ordering.Distinct(gvals) && Keys(RowsOf(hs, ByCluster, names)) <= Ordering.Elements(gvals)
    ensures Values(RowsOf(hs, Unspecified, names), Unspecified, gvals)
            == [Value("", WrapValue(SumOfValues(Values(RowsOf(hs, ByCluster, names), ByCluster, gvals))))]
  {
    hide WrapValue, SumOfValues, SumOver, Keys, Reported, Zeros, Plus, Lawful, RowsOf, SumAlong, Ordering.Elements,
      Ordering.Distinct, At;
    var rows := RowsOf(hs, ByCluster, names);
    var f, g := (k: string) => Reported(rows, k), AllReported(rows);
    SameRows(hs, names);
    SumOfGroupedValues(rows, gvals);
    FiguresLawful();
    forall k ensures f(k) == At(FIGURES, g, k) {
      AtIsReported(rows, k);
    }
    assert g.Keys == Keys(rows);
    SumAlongCovers(FIGURES, f, g, gvals);
  }

  // ----- what an average means

  /** A group's reported figures are its totals, as the fields hold them, over the number of histories that contain
      it; the two roundings of memory are one division by `count * 2^30`. */
  lemma ReportedMeaning(rows: Rows, k: string)
    requires k in Keys(rows)
    ensures Count(rows, k) >= 1 && Count(rows, k) * GB > 0
    ensures var (n, t, r) := (Count(rows, k), WrapTotals(Total(FIGURES, rows, k)), Reported(rows, k));
            && r.nodes == Quot(t.nodes, n) && r.gpus == Quot(t.gpus, n)
            && r.occupied == Quot(t.occupied, n) && r.pods == Quot(t.pods, n)
            && r.memory == Wrap32(Quot(t.memory, n * GB))
  {
    hide Zeros, Total, Count, Keys;
    Present(rows, k);
    QuotNested(Wrap64(Total(FIGURES, rows, k).memory), Count(rows, k), GB);
  }

  /** Averages stay in range: every reported figure lies between the least and the greatest amount that a single
      history contributes to the group (memory after the same rounding to GB). */
  lemma AverageInRange(rows: Rows, k: string, lo: Figures, hi: Figures)
    requires k in Keys(rows) && TotalsFit(Total(FIGURES, rows, k))
    requires Bounds(rows, k, lo, hi)
    requires -TWO_31 <= Quot(lo.memory, GB) && Quot(hi.memory, GB) < TWO_31
    ensures AtMost(InGB(lo).(memory := Quot(lo.memory, GB)), Reported(rows, k))
    ensures AtMost(Reported(rows, k), InGB(hi).(memory := Quot(hi.memory, GB)))
  {
    hide Zeros, Total, Count, Keys, Bounds;
    Present(rows, k);
    TotalBetween(rows, k, lo, hi);
    var n, t := Count(rows, k), Total(FIGURES, rows, k);
    QuotBetween(t.nodes, n, lo.nodes, hi.nodes);
    QuotBetween(t.gpus, n, lo.gpus, hi.gpus);
    QuotBetween(t.memory, n, lo.memory, hi.memory);
    QuotBetween(t.occupied, n, lo.occupied, hi.occupied);
    QuotBetween(t.pods, n, lo.pods, hi.pods);
    QuotMonotone(lo.memory, Quot(t.memory, n), GB);
    QuotMonotone(Quot(t.memory, n), hi.memory, GB);
  }

  /** `lo` and `hi` bound what every history that contains the group contributes to it. */
  ghost predicate Bounds(rows: Rows, k: string, lo: Figures, hi: Figures)
  {
    forall row :: row in rows && Hit(row, k) == 1 ==>
      AtMost(lo, RowTotal(FIGURES, row, k)) && AtMost(RowTotal(FIGURES, row, k), hi)
  }

  lemma {:induction false} TotalBetween(rows: Rows, k: string, lo: Figures, hi: Figures)
    requires Bounds(rows, k, lo, hi)
    ensures AtMost(Times(Count(rows, k), lo), Total(FIGURES, rows, k))
    ensures AtMost(Total(FIGURES, rows, k), Times(Count(rows, k), hi))
    decreases |rows|
  {
    hide Zeros, Plus, Hit, Of, Members, Sum, RowTotal, AtMost;
    if rows == [] {
      NothingBetween(k, lo, hi);
    } else {
      var init, last := rows[..|rows| - 1], rows[|rows| - 1];
      assert rows == init + [last];
      assert last in rows;
      TotalBetween(init, k, lo, hi);
      TotalBetweenStep(init, last, k, lo, hi);
    }
  }

  lemma NothingBetween(k: string, lo: Figures, hi: Figures)
    ensures AtMost(Times(Count<string, Figures>([], k), lo), Total(FIGURES, [], k))
    ensures AtMost(Total(FIGURES, [], k), Times(Count<string, Figures>([], k), hi))
  {
  }

  lemma TotalBetweenStep(init: Rows, last: Row<string, Figures>, k: string, lo: Figures, hi: Figures)
    requires Hit(last, k) == 1 ==> AtMost(lo, RowTotal(FIGURES, last, k)) && AtMost(RowTotal(FIGURES, last, k), hi)
    requires AtMost(Times(Count(init, k), lo), Total(FIGURES, init, k))
    requires AtMost(Total(FIGURES, init, k), Times(Count(init, k), hi))
    ensures AtMost(Times(Count(init + [last], k), lo), Total(FIGURES, init + [last], k))
    ensures AtMost(Total(FIGURES, init + [last], k), Times(Count(init + [last], k), hi))
  {
    hide *;
    FiguresLawful();
    AddRow(init, last, k);
    TotalAddRow(FIGURES, init, last, k);
    PlusIs(Total(FIGURES, init, k), RowTotal(FIGURES, last, k));
    HitIsBit(last, k);
    if Hit(last, k) == 0 {
      UnhitTotal(FIGURES, last, k);
      Zero(FIGURES, Total(FIGURES, init, k));
    } else {
      TimesStep(Count(init, k), lo);
      TimesStep(Count(init, k), hi);
      AtMostPlus(Times(Count(init, k), lo), Total(FIGURES, init, k), lo, RowTotal(FIGURES, last, k));
      AtMostPlus(Total(FIGURES, init, k), Times(Count(init, k), hi), RowTotal(FIGURES, last, k), hi);
    }
  }

  lemma PlusIs(a: Figures, b: Figures)
    ensures FIGURES.plus(a, b) == Plus(a, b)
  {
  }

  lemma AtMostPlus(a: Figures, b: Figures, c: Figures, d: Figures)
    requires AtMost(a, b) && AtMost(c, d)
    ensures AtMost(Plus(a, c), Plus(b, d))
  {
  }

  lemma HitIsBit(row: Row<string, Figures>, k: string)
    ensures Hit(row, k) == 0 || Hit(row, k) == 1
  {
  }

  // ----- replication

  lemma {:induction false} RowsOfCopies(hs: seq<History<Snapshot>>, n: nat, groupBy: GroupBy,
                                        names: map<string, string>)
    ensures RowsOf(Copies(hs, n), groupBy, names) == Copies(RowsOf(hs, groupBy, names), n)
    decreases n
  {
    if n > 0 {
      RowsOfCopies(hs, n - 1, groupBy, names);
    }
  }

  lemma ReportedOfCopies(rows: Rows, n: nat, k: string)
    requires n >= 1 && TotalsFit(Total(FIGURES, rows, k)) && TotalsFit(Times(n, Total(FIGURES, rows, k)))
    ensures Reported(Copies(rows, n), k) == Reported(rows, k)
  {
    hide Members, Count, Copies, Sum, Zeros, Lawful, Plus, Repeat;
    CopiesCount(rows, n, k);
    FiguresLawful();
    SumCopies(FIGURES, Members(rows, k), n);
    RepeatIsTimes(n, Total(FIGURES, rows, k));
    var c, t := Count(rows, k), Total(FIGURES, rows, k);
    if c > 0 {
      QuotScale(t.nodes, c, n);
      QuotScale(t.gpus, c, n);
      QuotScale(t.memory, c, n);
      QuotScale(t.occupied, c, n);
      QuotScale(t.pods, c, n);
    }
  }

  /** All group totals fit their Go types, also when every history is there `n` times. */
  ghost predicate ReplicasFit(rows: Rows, n: nat)
  {
    forall k :: var t := Total(FIGURES, rows, k); TotalsFit(t) && TotalsFit(Times(n, t))
  }

  /** `n` copies of each of a bucket's histories, in any order and with their nodes in any order, give the values of
      the bucket itself, rounding included, as long as the larger totals still fit their Go types. */
  lemma ReplicationInvariant(hs: seq<History<Snapshot>>, hs': seq<History<Snapshot>>, n: nat, groupBy: GroupBy,
                             names: map<string, string>, gvals: seq<string>)
    requires n >= 1 && SameHistories(hs', Copies(hs, n))
    requires ReplicasFit(RowsOf(hs, groupBy, names), n)
    ensures Values(RowsOf(hs', groupBy, names), groupBy, gvals) == Values(RowsOf(hs, groupBy, names), groupBy, gvals)
    ensures Keys(RowsOf(hs', groupBy, names)) == Keys(RowsOf(hs, groupBy, names))
  {
    hide *;
    ValuesOrderIndependent(hs', Copies(hs, n), groupBy, names, gvals);
    CopiesInvariant(hs, n, groupBy, names, gvals);
  }

  lemma CopiesInvariant(hs: seq<History<Snapshot>>, n: nat, groupBy: GroupBy, names: map<string, string>,
                        gvals: seq<string>)
    requires n >= 1 && ReplicasFit(RowsOf(hs, groupBy, names), n)
    ensures Values(RowsOf(Copies(hs, n), groupBy, names), groupBy, gvals)
            == Values(RowsOf(hs, groupBy, names), groupBy, gvals)
    ensures Keys(RowsOf(Copies(hs, n), groupBy, names)) == Keys(RowsOf(hs, groupBy, names))
  {
    var rows := RowsOf(hs, groupBy, names);
    RowsOfCopies(hs, n, groupBy, names);
    hide RowsOf, Total, Times, TotalsFit, Reported, SumOver, WrapValue, Copies, Keys;
    forall k ensures Reported(Copies(rows, n), k) == Reported(rows, k) {
      ReportedOfCopies(rows, n, k);
    }
    KeysOfCopies(rows, n);
    assert AllReported(Copies(rows, n)) == AllReported(rows);
    assert Map((k: string) => Value(k, Reported(Copies(rows, n), k)), gvals)
        == Map((k: string) => Value(k, Reported(rows, k)), gvals);
  }

  lemma KeysOfCopies(rows: Rows, n: nat)
    requires n >= 1
    ensures Keys(Copies(rows, n)) == Keys(rows)
  {
    hide Keys, Copies, Count;
    forall k ensures k in Keys(Copies(rows, n)) <==> k in Keys(rows) {
      CopiesCount(rows, n, k);
      Present(rows, k);
      Present(Copies(rows, n), k);
    }
  }

  // ----- occupancy within capacity

  predicate Within(f: Figures)
  {
    f.occupied <= f.gpus
  }

  ghost predicate NodesWithin(hs: seq<History<Snapshot>>)
  {
    forall h, n :: h in hs && h.message.Encoded? && n in h.message.value.nodes ==> n.gpuOccupancy <= n.gpuCapacity
  }

  lemma EntriesWithin(hs: seq<History<Snapshot>>, groupBy: GroupBy, names: map<string, string>,
                      row: Row<string, Figures>, k: string, f: Figures)
    requires NodesWithin(hs) && row in RowsOf(hs, groupBy, names) && (k, f) in row
    ensures Within(f)
  {
    var i :| 0 <= i < |hs| && row == RowOf(hs[i], groupBy, names);
    var j :| 0 <= j < |row| && row[j] == (k, f);
    assert hs[i].message.value.nodes[j] in hs[i].message.value.nodes;
  }

  lemma WithinClosed()
    ensures Closed(FIGURES, Within)
  {
  }

  /** The GPU capacity does not overflow, nor the occupancy underflow. */
  predicate GpusInRange(f: Figures)
  {
    f.gpus < TWO_31 && -TWO_31 <= f.occupied
  }

  lemma TotalWithin(hs: seq<History<Snapshot>>, groupBy: GroupBy, names: map<string, string>, k: string)
    requires NodesWithin(hs)
    ensures Within(Total(FIGURES, RowsOf(hs, groupBy, names), k))
  {
    var rows := RowsOf(hs, groupBy, names);
    hide Members, Closed, RowsOf, Sum, NodesWithin;
    forall f | f in Members(rows, k) ensures Within(f) {
      MembersComeFromRows(rows, k, f);
      var row :| row in rows && (k, f) in row;
      EntriesWithin(hs, groupBy, names, row, k, f);
    }
    WithinClosed();
    SumSatisfies(FIGURES, Within, Members(rows, k));
  }

  lemma ReportedWithin(hs: seq<History<Snapshot>>, groupBy: GroupBy, names: map<string, string>, k: string)
    requires NodesWithin(hs) && GpusInRange(Total(FIGURES, RowsOf(hs, groupBy, names), k))
    ensures Within(Reported(RowsOf(hs, groupBy, names), k))
  {
    var rows := RowsOf(hs, groupBy, names);
    hide RowsOf, Total, Count, NodesWithin, Within, GpusInRange, Zeros, InGB, Mean, WrapTotals;
    TotalWithin(hs, groupBy, names, k);
    NoneWithin();
    if Count(rows, k) > 0 {
      MeanWithin(Total(FIGURES, rows, k), Count(rows, k));
    }
  }

  lemma NoneWithin()
    ensures Within(Zeros())
  {
  }

  lemma MeanWithin(f: Figures, n: nat)
    requires Within(f) && GpusInRange(f) && n > 0
    ensures Within(InGB(Mean(WrapTotals(f), n)))
  {
    hide Wrap32, Wrap64, Quot;
    Wrap32Keeps(f.occupied);
    Wrap32Keeps(f.gpus);
    QuotMonotone(f.occupied, f.gpus, n);
  }

  /** If no node is occupied beyond its capacity, no reported value is, in any grouping mode, as long as the GPU
      totals stay in range. */
  lemma OccupancyWithinCapacity(hs: seq<History<Snapshot>>, groupBy: GroupBy, names: map<string, string>,
                                gvals: seq<string>, v: Value)
    requires NodesWithin(hs)
    requires forall k :: GpusInRange(Total(FIGURES, RowsOf(hs, groupBy, names), k))
    requires var rows := RowsOf(hs, groupBy, names);
             groupBy.Unspecified? ==> GpusInRange(SumOver(FIGURES, AllReported(rows), Keys(rows)))
    requires v in Values(RowsOf(hs, groupBy, names), groupBy, gvals)
    ensures v.figures.occupied <= v.figures.gpus
  {
    var rows := RowsOf(hs, groupBy, names);
    hide Total, RowsOf, NodesWithin, Reported, Keys, SumOver, Closed;
    forall k ensures Within(Reported(rows, k)) {
      ReportedWithin(hs, groupBy, names, k);
    }
    WithinClosed();
    SumOverSatisfies(FIGURES, Within, AllReported(rows), Keys(rows));
  }

  // ----- every node is counted once

  ghost function NodesOf(h: History<Snapshot>): seq<SnapshotNode>
  {
    if h.message.Malformed? then [] else h.message.value.nodes
  }

  /** The nodes of all snapshots, in order. */
  ghost function AllNodes(hs: seq<History<Snapshot>>): seq<SnapshotNode>
  {
    if hs == [] then [] else AllNodes(hs[..|hs| - 1]) + NodesOf(hs[|hs| - 1])
  }

  lemma RowPayload(h: History<Snapshot>, groupBy: GroupBy, names: map<string, string>)
    ensures Map(EntryValue, RowOf(h, groupBy, names)) == Map(FiguresOf, NodesOf(h))
  {
    hide FiguresOf;
    var row := RowOf(h, groupBy, names);
    var values: seq<Figures> := Map(EntryValue, row);
    forall i | 0 <= i < |row| ensures values[i] == FiguresOf(NodesOf(h)[i]) {
      assert row[i] == Entry(h.clusterID, NodesOf(h)[i], groupBy, names);
      assert values[i] == EntryValue(row[i]);
    }
  }

  lemma RowsOfSplit(hs: seq<History<Snapshot>>, groupBy: GroupBy, names: map<string, string>)
    requires hs != []
    ensures RowsOf(hs, groupBy, names)
            == RowsOf(hs[..|hs| - 1], groupBy, names) + [RowOf(hs[|hs| - 1], groupBy, names)]
  {
    hide RowOf;
  }

  lemma {:induction false} GrandTotalIsAllNodes(hs: seq<History<Snapshot>>, groupBy: GroupBy,
                                                names: map<string, string>)
    ensures GrandTotal(FIGURES, RowsOf(hs, groupBy, names)) == Sum(FIGURES, Map(FiguresOf, AllNodes(hs)))
    decreases |hs|
  {
    if hs == [] {
      assert Map(FiguresOf, AllNodes(hs)) == [];
    } else {
      var init, h := hs[..|hs| - 1], hs[|hs| - 1];
      GrandTotalIsAllNodes(init, groupBy, names);
      RowsOfSplit(hs, groupBy, names);
      assert AllNodes(hs) == AllNodes(init) + NodesOf(h);
      hide *;
      FiguresLawful();
      GrandTotalAddRow(FIGURES, RowsOf(init, groupBy, names), RowOf(h, groupBy, names));
      RowPayload(h, groupBy, names);
      MapConcat(FiguresOf, AllNodes(init), NodesOf(h));
      SumConcat(FIGURES, Map(FiguresOf, AllNodes(init)), Map(FiguresOf, NodesOf(h)));
    }
  }

  /** In every grouping mode the group totals along a covering key list add up to the totals of all nodes of the
      bucket: each node contributes to exactly one value. */
  lemma NodesConserved(hs: seq<History<Snapshot>>, groupBy: GroupBy, names: map<string, string>, gvals: seq<string>)
    requires Ordering.Distinct(gvals) && Keys(RowsOf(hs, groupBy, names)) <= Ordering.Elements(gvals)
    ensures SumOfTotals(FIGURES, RowsOf(hs, groupBy, names), gvals) == Sum(FIGURES, Map(FiguresOf, AllNodes(hs)))
  {
    hide *;
    FiguresLawful();
    GroupsConserve(FIGURES, RowsOf(hs, groupBy, names), gvals);
    GrandTotalIsAllNodes(hs, groupBy, names);
  }
}
