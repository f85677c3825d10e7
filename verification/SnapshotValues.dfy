/** The values of one snapshot datapoint: group the nodes of a bucket's histories, average every group over the
    histories that contain it, then collapse the groups or lay them out along the global key list. */
module SnapshotValues {
  import GoInt
  import Seqs
  import opened Grouping
  import opened Ordering
  import opened Figures
  import opened Folds
  import GroupTotals
  import opened Tally
  import opened Telemetry
  import FirstErrors

  datatype GroupBy = Unspecified | ByCluster | ByProduct | Unknown(value: int)

  datatype Value = Value(groupingValue: string, figures: Figures)

  function GetGroupingValue(clusterID: string, node: SnapshotNode, groupBy: GroupBy, names: map<string, string>)
    : (r: Result<string>)
    ensures KeyError(clusterID, groupBy, names) == if r.Failure? then Some(r.error) else None
    ensures groupBy.Unknown? || (!groupBy.ByProduct? && clusterID !in names) <==> r.Failure?
    ensures r.Failure? ==> r == Failure(if groupBy.Unknown? then BadGroupBy(groupBy.value) else NoClusterName(clusterID))
    ensures r.Success? && groupBy.ByProduct? ==> r.value == if node.product.Some? then node.product.value else "unknown"
    ensures r.Success? && !groupBy.ByProduct? ==> clusterID in names && r.value == names[clusterID]
  {
    match groupBy
    case Unspecified => if clusterID in names then Success(names[clusterID]) else Failure(NoClusterName(clusterID))
    case ByCluster => if clusterID in names then Success(names[clusterID]) else Failure(NoClusterName(clusterID))
    case ByProduct => Success(if node.product.None? then "unknown" else node.product.value)
    case Unknown(v) => Failure(BadGroupBy(v))
  }

  /** Why no node of a cluster can be grouped, if so; this does not depend on the node. */
  function KeyError(clusterID: string, groupBy: GroupBy, names: map<string, string>): Option<Error>
  {
    match groupBy
    case ByProduct => None
    case Unknown(v) => Some(BadGroupBy(v))
    case _ => if clusterID in names then None else Some(NoClusterName(clusterID))
  }

  function HistoryError(h: History<Snapshot>, groupBy: GroupBy, names: map<string, string>): Option<Error>
  {
    if h.message.Malformed? then Some(BadMessage)
    else if h.message.value.nodes == [] then None
    else KeyError(h.clusterID, groupBy, names)
  }

  ghost function FirstError(hs: seq<History<Snapshot>>, groupBy: GroupBy, names: map<string, string>): Option<Error>
  {
    FirstErrors.FirstOf((h: History<Snapshot>) => HistoryError(h, groupBy, names), hs)
  }

  function FiguresOf(node: SnapshotNode): Figures
  {
    Figures(1, node.gpuCapacity, node.memoryCapacity, node.gpuOccupancy, node.podCount)
  }

  ghost function Entry(clusterID: string, node: SnapshotNode, groupBy: GroupBy, names: map<string, string>)
    : (string, Figures)
  {
    var key := GetGroupingValue(clusterID, node, groupBy, names);
    (if key.Success? then key.value else "", FiguresOf(node))
  }

  ghost function RowOf(h: History<Snapshot>, groupBy: GroupBy, names: map<string, string>): Row<string, Figures>
  {
    if h.message.Malformed? then []
    else Seqs.Map((n: SnapshotNode) => Entry(h.clusterID, n, groupBy, names), h.message.value.nodes)
  }

  ghost function RowsOf(hs: seq<History<Snapshot>>, groupBy: GroupBy, names: map<string, string>)
    : seq<Row<string, Figures>>
  {
    Seqs.Map((h: History<Snapshot>) => RowOf(h, groupBy, names), hs)
  }

  // ----- the declarative meaning of a datapoint

  const TOTALS: Accumulator<Figures> := Accumulator(FIGURES, WrapTotals)

  lemma TotalsSound()
    ensures Sound(TOTALS)
  {
    hide Plus, WrapTotals, Lawful;
    FiguresLawful();
    assert WrapTotals(Zeros()) == Zeros() by {
      WrapZeros();
    }
    forall a, b ensures WrapTotals(Plus(WrapTotals(a), b)) == WrapTotals(Plus(a, b)) {
      WrapTotalsAbsorbs(a, b);
    }
  }

  lemma WrapZeros()
    ensures WrapTotals(Zeros()) == Zeros() && WrapValue(Zeros()) == Zeros()
  {
  }

  function Mean(f: Figures, n: Positive): Figures
  {
    DividedBy(f, n)
  }

  /** The reported figures of a group: its totals over all its nodes in all histories, divided by the number of
      histories that contain it. */
  ghost function Reported(rows: seq<Row<string, Figures>>, k: string): Figures
  {
    if Count(rows, k) == 0 then Zeros()
    else InGB(Mean(WrapTotals(GroupTotals.Total(FIGURES, rows, k)), Count(rows, k)))
  }

  ghost function AllReported(rows: seq<Row<string, Figures>>): map<string, Figures>
  {
    map k | k in Keys(rows) :: Reported(rows, k)
  }

  ghost function Values(rows: seq<Row<string, Figures>>, groupBy: GroupBy, gvals: seq<string>): seq<Value>
  {
    if groupBy.Unspecified? then [Value("", WrapValue(SumOver(FIGURES, AllReported(rows), Keys(rows))))]
    else Seqs.Map((k: string) => Value(k, Reported(rows, k)), gvals)
  }

  // ----- the loops

  /** The update of a group's statistic by one node, field by field. */
  function Accumulate(s: Stat<Figures>, first: bool, node: SnapshotNode): Stat<Figures>
  {
    Stat(if first then s.hsCount + 1 else s.hsCount,
         Figures(GoInt.Wrap32(s.figures.nodes + 1),
                 GoInt.Wrap32(s.figures.gpus + node.gpuCapacity),
                 GoInt.Wrap64(s.figures.memory + node.memoryCapacity),
                 GoInt.Wrap32(s.figures.occupied + node.gpuOccupancy),
                 GoInt.Wrap32(s.figures.pods + node.podCount)))
  }

  lemma AccumulateIsAddNode(s: Stat<Figures>, first: bool, node: SnapshotNode)
    ensures Accumulate(s, first, node) == AddNode(TOTALS, s, first, FiguresOf(node))
  {
  }

  /** Groups the nodes of every history, in the order of the two lists. */
  method Group(hs: seq<History<Snapshot>>, groupBy: GroupBy, names: map<string, string>)
    returns (r: Result<map<string, Stat<Figures>>>)
    ensures FirstError(hs, groupBy, names) == if r.Failure? then Some(r.error) else None
    ensures r.Success? ==> Tallies(TOTALS, r.value, RowsOf(hs, groupBy, names))
  {
    assert hs[..0] == [] && FirstError([], groupBy, names).None? && RowsOf([], groupBy, names) == [];
    var stats: map<string, Stat<Figures>> := map[];
    NoTallies<string, Figures>(TOTALS);
    hide *;
    for i := 0 to |hs|
      invariant FirstError(hs[..i], groupBy, names).None?
      invariant Tallies(TOTALS, stats, RowsOf(hs[..i], groupBy, names))
    {
      ErrorNext(hs, i, groupBy, names);
      RowsNext(hs, i, groupBy, names);
      var grouped := GroupHistory(stats, hs[i], groupBy, names, RowsOf(hs[..i], groupBy, names));
      if grouped.Failure? {
        ErrorOfPrefix(hs, i + 1, groupBy, names);
        return Failure(grouped.error);
      }
      stats := grouped.value;
    }
    assert hs[..|hs|] == hs;
    return Success(stats);
  }

  lemma RowsNext(hs: seq<History<Snapshot>>, i: nat, groupBy: GroupBy, names: map<string, string>)
    requires i < |hs|
    ensures RowsOf(hs[..i + 1], groupBy, names) == RowsOf(hs[..i], groupBy, names) + [RowOf(hs[i], groupBy, names)]
  {
    hide RowOf;
  }

  /** One history: its message is unmarshalled, and every node is added to its group. */
  method GroupHistory(stats: map<string, Stat<Figures>>, h: History<Snapshot>, groupBy: GroupBy,
                      names: map<string, string>, ghost rows: seq<Row<string, Figures>>)
    returns (r: Result<map<string, Stat<Figures>>>)
    requires Tallies(TOTALS, stats, rows)
    ensures HistoryError(h, groupBy, names) == if r.Failure? then Some(r.error) else None
    ensures r.Success? ==> Tallies(TOTALS, r.value, rows + [RowOf(h, groupBy, names)])
  {
    if h.message.Malformed? {
      return Failure(BadMessage);
    }
    var nodes := h.message.value.nodes;
    var key := (n: SnapshotNode) => GetGroupingValue(h.clusterID, n, groupBy, names);
    assert RowFor(key, FiguresOf, nodes, RowOf(h, groupBy, names));
    assert HistoryError(h, groupBy, names) == if nodes == [] then None else KeyError(h.clusterID, groupBy, names);
    hide *;
    TotalsSound();
    forall s, first, n ensures Accumulate(s, first, n) == AddNode(TOTALS, s, first, FiguresOf(n)) {
      AccumulateIsAddNode(s, first, n);
    }
    BlankStat();
    r := GroupNodes(TOTALS, Stat(0, Zeros()), key, FiguresOf, Accumulate, stats, nodes, rows, RowOf(h, groupBy, names));
    if nodes != [] {
      assert nodes[0] in nodes;
    }
  }

  lemma BlankStat()
    ensures TOTALS.m.zero == Zeros()
  {
  }

  lemma ErrorOfPrefix(hs: seq<History<Snapshot>>, n: nat, groupBy: GroupBy, names: map<string, string>)
    requires n <= |hs| && FirstError(hs[..n], groupBy, names).Some?
    ensures FirstError(hs, groupBy, names) == FirstError(hs[..n], groupBy, names)
  {
    FirstErrors.FirstOfPrefix((h: History<Snapshot>) => HistoryError(h, groupBy, names), hs, n);
  }

  lemma ErrorNext(hs: seq<History<Snapshot>>, i: nat, groupBy: GroupBy, names: map<string, string>)
    requires i < |hs| && FirstError(hs[..i], groupBy, names).None?
    ensures FirstError(hs[..i + 1], groupBy, names) == HistoryError(hs[i], groupBy, names)
  {
    FirstErrors.FirstOfNext((h: History<Snapshot>) => HistoryError(h, groupBy, names), hs, i);
  }

  /** Adds up all groups, in whatever order the map yields them. */
  method Collapse(stats: map<string, Stat<Figures>>) returns (val: Figures)
    ensures var inGB := map k | k in stats :: InGB(stats[k].figures);
            val == WrapValue(SumOver(FIGURES, inGB, inGB.Keys))
  {
    hide *;
    ghost var inGB := map k | k in stats :: InGB(stats[k].figures);
    val := Zeros();
    NothingCollapsed(inGB);
    var rest := stats.Keys;
    ghost var done := {};
    while rest != {}
      invariant done + rest == stats.Keys && done !! rest
      invariant val == WrapValue(SumOver(FIGURES, inGB, done))
    {
      var k :| k in rest;
      CollapseOne(inGB, done, k);
      val := WrapValue(Plus(val, InGB(stats[k].figures)));
      rest, done := rest - {k}, done + {k};
    }
    assert done == inGB.Keys;
  }

  lemma NothingCollapsed(m: map<string, Figures>)
    ensures WrapValue(SumOver(FIGURES, m, {})) == Zeros()
  {
  }

  lemma CollapseOne(m: map<string, Figures>, done: set<string>, k: string)
    requires done <= m.Keys && k in m && k !in done
    ensures WrapValue(SumOver(FIGURES, m, done + {k})) == WrapValue(Plus(WrapValue(SumOver(FIGURES, m, done)), m[k]))
  {
    hide WrapValue, Plus, Zeros, Lawful, SumOver;
    FiguresLawful();
    SumOverRemove(FIGURES, m, done + {k}, k);
    assert done + {k} - {k} == done;
    WrapValueAbsorbs(SumOver(FIGURES, m, done), m[k]);
  }

  /** One value per key of the global list, in its order; keys without nodes in this bucket get zeros. */
  method LayOut(stats: map<string, Stat<Figures>>, allGroupingValues: seq<string>) returns (vals: seq<Value>)
    ensures vals == Seqs.Map((k: string) => Value(k, FiguresIn(stats, k)), allGroupingValues)
  {
    vals := [];
    for i := 0 to |allGroupingValues|
      invariant vals == Seqs.Map((k: string) => Value(k, FiguresIn(stats, k)), allGroupingValues[..i])
    {
      var gval := allGroupingValues[i];
      if gval !in stats {
        vals := vals + [Value(gval, Zeros())];
      } else {
        vals := vals + [Value(gval, InGB(stats[gval].figures))];
      }
    }
    assert allGroupingValues[..|allGroupingValues|] == allGroupingValues;
  }

  function FiguresIn(stats: map<string, Stat<Figures>>, k: string): Figures
  {
    if k in stats then InGB(stats[k].figures) else Zeros()
  }

  /** Computes a datapoint with the loops of the handler; the result is the declarative meaning above. */
  method CalculateSnapshotValues(hs: seq<History<Snapshot>>, groupBy: GroupBy, names: map<string, string>,
                                 allGroupingValues: seq<string>)
    returns (r: Result<seq<Value>>)
    ensures FirstError(hs, groupBy, names) == if r.Failure? then Some(r.error) else None
    ensures r.Success? ==> r.value == Values(RowsOf(hs, groupBy, names), groupBy, allGroupingValues)
  {
    hide *;
    var grouped := Group(hs, groupBy, names);
    if grouped.Failure? {
      return Failure(grouped.error);
    }
    TalliesPositive(TOTALS, grouped.value, RowsOf(hs, groupBy, names));
    var stats := AverageAll(Mean, grouped.value);
    ValuesOfStats(RowsOf(hs, groupBy, names), grouped.value, stats, groupBy, allGroupingValues);
    if groupBy.Unspecified? {
      var val := Collapse(stats);
      return Success([Value("", val)]);
    }
    var vals := LayOut(stats, allGroupingValues);
    return Success(vals);
  }

  lemma ValuesOfStats(rows: seq<Row<string, Figures>>, tallies: map<string, Stat<Figures>>,
                      stats: map<string, Stat<Figures>>, groupBy: GroupBy, gvals: seq<string>)
    requires Tallies(TOTALS, tallies, rows)
    requires forall k :: k in tallies ==> tallies[k].hsCount >= 1
    requires stats == map k | k in tallies :: Averaged(Mean, tallies[k])
    ensures var inGB := map k | k in stats :: InGB(stats[k].figures);
            Values(rows, groupBy, gvals)
            == if groupBy.Unspecified? then [Value("", WrapValue(SumOver(FIGURES, inGB, inGB.Keys)))]
               else Seqs.Map((k: string) => Value(k, FiguresIn(stats, k)), gvals)
  {
    StatsAreReported(rows, tallies, stats);
    hide Reported, FiguresIn, InGB, SumOver, Averaged, Tallies;
    assert (map k | k in stats :: InGB(stats[k].figures)).Keys == stats.Keys;
  }

  lemma StatsAreReported(rows: seq<Row<string, Figures>>, tallies: map<string, Stat<Figures>>,
                         stats: map<string, Stat<Figures>>)
    requires Tallies(TOTALS, tallies, rows)
    requires forall k :: k in tallies ==> tallies[k].hsCount >= 1
    requires stats == map k | k in tallies :: Averaged(Mean, tallies[k])
    ensures forall k :: Reported(rows, k) == FiguresIn(stats, k)
    ensures AllReported(rows) == map k | k in stats :: InGB(stats[k].figures)
    ensures Keys(rows) == stats.Keys
  {
    hide Zeros, WrapTotals, InGB, Mean, GroupTotals.Total, Members, Keys;
    TalliesKeys(TOTALS, tallies, rows);
  }

  /** The global list of group keys: every key of every history, each once, in ascending order. */
  method GetAllGroupingValues(hs: seq<History<Snapshot>>, groupBy: GroupBy, names: map<string, string>)
    returns (r: Result<seq<string>>)
    ensures StrictTotalOrder(StringLess)
    ensures FirstError(hs, groupBy, names) == if r.Failure? then Some(r.error) else None
    ensures r.Success? ==> r.value == Sorted(StringLess, Keys(RowsOf(hs, groupBy, names)))
  {
    hide *;
    StringOrder();
    NoKeysYet(groupBy, names);
    var gvalMap: set<string> := {};
    assert hs[..0] == [];
    for i := 0 to |hs|
      invariant FirstError(hs[..i], groupBy, names).None?
      invariant gvalMap == Keys(RowsOf(hs[..i], groupBy, names))
    {
      ErrorNext(hs, i, groupBy, names);
      var keys := NodeKeys(hs[i], groupBy, names);
      if keys.Failure? {
        ErrorOfPrefix(hs, i + 1, groupBy, names);
        return Failure(keys.error);
      }
      gvalMap := gvalMap + keys.value;
      RowsNext(hs, i, groupBy, names);
      KeysAddRow(RowsOf(hs[..i], groupBy, names), RowOf(hs[i], groupBy, names));
    }
    assert hs[..|hs|] == hs;
    var gvals := Enumerate(gvalMap);
    var sorted := Sort(StringLess, gvals);
    return Success(sorted);
  }

  lemma NoKeysYet(groupBy: GroupBy, names: map<string, string>)
    ensures Keys(RowsOf([], groupBy, names)) == {} && FirstError([], groupBy, names).None?
  {
  }

  /** The keys of the nodes of one history. */
  method NodeKeys(h: History<Snapshot>, groupBy: GroupBy, names: map<string, string>) returns (r: Result<set<string>>)
    ensures HistoryError(h, groupBy, names) == if r.Failure? then Some(r.error) else None
    ensures r.Success? ==> r.value == RowKeys(RowOf(h, groupBy, names))
  {
    if h.message.Malformed? {
      return Failure(BadMessage);
    }
    var keys, nodes := {}, h.message.value.nodes;
    ghost var row := RowOf(h, groupBy, names);
    ghost var keyOf := (n: SnapshotNode) => GetGroupingValue(h.clusterID, n, groupBy, names);
    assert RowFor(keyOf, FiguresOf, nodes, row);
    assert HistoryError(h, groupBy, names) == if nodes == [] then None else KeyError(h.clusterID, groupBy, names);
    hide *;
    RowWhole(keyOf, FiguresOf, nodes, row);
    NoKeys(row);
    for j := 0 to |nodes|
      invariant KeyError(h.clusterID, groupBy, names).None? || j == 0
      invariant keys == RowKeys(row[..j])
    {
      var key := GetGroupingValue(h.clusterID, nodes[j], groupBy, names);
      if key.Failure? {
        return Failure(key.error);
      }
      RowPrefix(keyOf, FiguresOf, nodes, row, j);
      keys := keys + {key.value};
    }
    return Success(keys);
  }
}
