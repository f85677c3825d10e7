/** When the reported figures are right: the exact conditions on the totals, and inputs on which they fail. */
module SnapshotOverflow {
  import opened GoInt
  import opened Folds
  import opened Grouping
  import opened GroupTotals
  import opened Figures
  import opened Telemetry
  import opened SnapshotValues
  import opened SnapshotTheorems

  /** The averages of a group over unbounded integers, memory in GB. */
  ghost function Exact(rows: Rows, k: string): Figures
  {
    if Count(rows, k) == 0 then Zeros()
    else
      var f := Mean(Total(FIGURES, rows, k), Count(rows, k));
      f.(memory := Quot(f.memory, GB))
  }

  ghost function AllExact(rows: Rows): map<string, Figures>
  {
    map k | k in Keys(rows) :: Exact(rows, k)
  }

  predicate FitsInt32(x: int)
  {
    -TWO_31 <= x < TWO_31
  }

  /** Go averages the wrapped totals. For fewer than 2^31 histories that is the average of the true totals exactly if
      no total overflows its Go type. */
  lemma AveragesExactIffTotalsFit(rows: Rows, k: string)
    requires 0 < Count(rows, k) < TWO_31
    ensures var (t, n) := (Total(FIGURES, rows, k), Count(rows, k));
            Mean(WrapTotals(t), n) == Mean(t, n) <==> TotalsFit(t)
  {
    hide Total, Count, Wrap32, Wrap64, Quot;
    var t, n := Total(FIGURES, rows, k), Count(rows, k);
    AverageExact(t.nodes, n);
    AverageExact(t.gpus, n);
    AverageExact(t.memory, n);
    AverageExact(t.occupied, n);
    AverageExact(t.pods, n);
  }

  /** The reported figures of a group are the exact averages exactly if no total overflows its Go type and the
      average memory in GB fits an int32. */
  lemma ReportedExactIff(rows: Rows, k: string)
    requires 0 < Count(rows, k) < TWO_31
    ensures Reported(rows, k) == Exact(rows, k)
            <==> TotalsFit(Total(FIGURES, rows, k)) && FitsInt32(Exact(rows, k).memory)
  {
    hide Total, Count, Wrap32, Wrap64, Quot, Zeros;
    var t, n := Total(FIGURES, rows, k), Count(rows, k);
    AverageExact(t.nodes, n);
    AverageExact(t.gpus, n);
    AverageExact(t.occupied, n);
    AverageExact(t.pods, n);
    QuotNested(t.memory, n, GB);
    QuotNested(Wrap64(t.memory), n, GB);
    NarrowedExact(t.memory, n, n * GB);
  }

  /** If every group is reported exactly, the ungrouped value is the exact sum of the groups exactly if that sum fits
      an int32 in every field. */
  lemma UngroupedExactIff(rows: Rows, gvals: seq<string>)
    requires forall k :: k in Keys(rows) ==> Reported(rows, k) == Exact(rows, k)
    ensures var sum := SumOver(FIGURES, AllExact(rows), Keys(rows));
            Values(rows, Unspecified, gvals) == [Value("", sum)]
            <==> FitsInt32(sum.nodes) && FitsInt32(sum.gpus) && FitsInt32(sum.memory) && FitsInt32(sum.occupied)
                 && FitsInt32(sum.pods)
  {
    hide Keys, Count, Exact, Reported, SumOver, Zeros;
    assert AllExact(rows) == AllReported(rows);
    hide AllExact, AllReported;
  }

  // ----- inputs on which figures go wrong

  /** One more row, with one entry. */
  lemma AddSingleton(rows: Rows, k: string, f: Figures, key: string)
    ensures var all := rows + [[(k, f)]];
            && Count(all, key) == Count(rows, key) + (if key == k then 1 else 0)
            && Total(FIGURES, all, key)
               == (if key == k then Plus(Total(FIGURES, rows, key), f) else Total(FIGURES, rows, key))
            && Keys(all) == Keys(rows) + {k}
  {
    assert RowKeys<string, Figures>([]) == {};
    hide *;
    var row: Row<string, Figures> := [(k, f)];
    assert [] + [(k, f)] == row;
    FiguresLawful();
    AddRow(rows, row, key);
    NoEntries(key);
    AddEntry([], (k, f), key);
    HitOf(row, key);
    TotalAddRow(FIGURES, rows, row, key);
    NoTotals<string, Figures>(FIGURES, key);
    RowTotalAddEntry(FIGURES, [], (k, f), key);
    Zero(FIGURES, f);
    Zero(FIGURES, FIGURES.zero);
    Zero(FIGURES, Total(FIGURES, rows, key));
    PlusIs(Total(FIGURES, rows, key), f);
    RowKeysAdd([], (k, f));
    KeysAddRow(rows, row);
  }

  lemma NoRowsYet(k: string, f: Figures)
    ensures Count<string, Figures>([], k) == 0 && Plus(Total(FIGURES, [], k), f) == f
    ensures Keys<string, Figures>([]) == {}
  {
  }

  /** One row with one entry. */
  lemma OneRow(k: string, f: Figures)
    ensures Count([[(k, f)]], k) == 1 && Total(FIGURES, [[(k, f)]], k) == f
  {
    hide *;
    AddSingleton([], k, f, k);
    NoRowsYet(k, f);
    assert [] + [[(k, f)]] == [[(k, f)]];
  }

  /** One row with two entries under the same key. */
  lemma TwoEntries(k: string, f: Figures, g: Figures)
    ensures var rows: Rows := [[(k, f), (k, g)]]; Count(rows, k) == 1 && Total(FIGURES, rows, k) == Plus(f, g)
  {
    var one: Row<string, Figures> := [(k, f)];
    var row: Row<string, Figures> := [(k, f), (k, g)];
    assert [] + [row] == [row] && [] + [(k, f)] == one && one + [(k, g)] == row;
    hide *;
    FiguresLawful();
    NoRows<string, Figures>(k);
    NoTotals<string, Figures>(FIGURES, k);
    AddRow([], row, k);
    AddEntry(one, (k, g), k);
    HitOf(row, k);
    TotalAddRow(FIGURES, [], row, k);
    RowTotalAddEntry(FIGURES, [], (k, f), k);
    RowTotalAddEntry(FIGURES, one, (k, g), k);
    Zero(FIGURES, f);
    Zero(FIGURES, Plus(f, g));
    PlusIs(f, g);
  }

  /** Two rows with one entry each, under different keys. */
  lemma TwoRows(k: string, f: Figures, k': string, f': Figures)
    requires k != k'
    ensures var rows: Rows := [[(k, f)], [(k', f')]];
            && Count(rows, k) == 1 && Total(FIGURES, rows, k) == f
            && Count(rows, k') == 1 && Total(FIGURES, rows, k') == f'
            && Keys(rows) == {k, k'}
  {
    hide *;
    AddSingleton([], k, f, k);
    AddSingleton([], k, f, k');
    AddSingleton([[(k, f)]], k', f', k);
    AddSingleton([[(k, f)]], k', f', k');
    NoRowsYet(k, f);
    NoRowsYet(k', f');
    assert [] + [[(k, f)]] == [[(k, f)]];
    assert [[(k, f)]] + [[(k', f')]] == [[(k, f)], [(k', f')]];
  }

  lemma NoEntries(k: string)
    ensures Of<string, Figures>([], k) == []
  {
  }

  lemma HitOf(row: Row<string, Figures>, k: string)
    ensures Hit(row, k) == if Of(row, k) != [] then 1 else 0
  {
  }

  /** Overflowing total: one history with two nodes of 2^31 - 1 GPUs each is reported with -2 GPUs. */
  lemma OverflowingCapacity(h: History<Snapshot>, a: SnapshotNode, b: SnapshotNode, name: string)
    requires h.message == Encoded(Snapshot([a, b])) && a.gpuCapacity == b.gpuCapacity == 0x7fff_ffff
    ensures var rows := RowsOf([h], ByCluster, map[h.clusterID := name]);
            && Total(FIGURES, rows, name).gpus == 0xffff_fffe
            && Reported(rows, name).gpus == -2
            && Values(rows, ByCluster, [name]) == [Value(name, Reported(rows, name))]
  {
    hide Total, Count;
    var row: Row<string, Figures> := [(name, FiguresOf(a)), (name, FiguresOf(b))];
    assert RowOf(h, ByCluster, map[h.clusterID := name]) == row;
    assert RowsOf([h], ByCluster, map[h.clusterID := name]) == [row];
    hide RowsOf;
    TwoEntries(name, FiguresOf(a), FiguresOf(b));
  }

  /** Overflowing conversion: one history with one node of 2^61 bytes is reported with -2^31 GB, though every total
      fits. */
  lemma OverflowingMemory(h: History<Snapshot>, a: SnapshotNode, name: string)
    requires h.message == Encoded(Snapshot([a])) && a.memoryCapacity == 0x2000_0000_0000_0000
    ensures var rows := RowsOf([h], ByCluster, map[h.clusterID := name]);
            && TotalsFit(Total(FIGURES, rows, name))
            && Reported(rows, name).memory == -0x8000_0000
  {
    hide Total, Count;
    var row: Row<string, Figures> := [(name, FiguresOf(a))];
    assert RowOf(h, ByCluster, map[h.clusterID := name]) == row;
    assert RowsOf([h], ByCluster, map[h.clusterID := name]) == [row];
    hide RowsOf;
    OneRow(name, FiguresOf(a));
  }

  /** Overflowing sum: two clusters with one node of 2^31 - 1 GPUs each are both reported right, and together with
      -2 GPUs. */
  lemma OverflowingSum(h: History<Snapshot>, a: SnapshotNode, name: string, h': History<Snapshot>, a': SnapshotNode,
                       name': string, gvals: seq<string>)
    requires h.message == Encoded(Snapshot([a])) && h'.message == Encoded(Snapshot([a']))
    requires a.gpuCapacity == a'.gpuCapacity == 0x7fff_ffff
    requires h.clusterID != h'.clusterID && name != name'
    ensures var rows := RowsOf([h, h'], Unspecified, map[h.clusterID := name, h'.clusterID := name']);
            && Reported(rows, name).gpus == Reported(rows, name').gpus == 0x7fff_ffff
            && |Values(rows, Unspecified, gvals)| == 1 && Values(rows, Unspecified, gvals)[0].figures.gpus == -2
  {
    hide Total, Count, Keys, SumOver;
    var names := map[h.clusterID := name, h'.clusterID := name'];
    SingleNode(h, a, names);
    SingleNode(h', a', names);
    assert RowsOf([h, h'], Unspecified, names) == [RowOf(h, Unspecified, names), RowOf(h', Unspecified, names)] by {
      hide RowOf;
    }
    var rows := RowsOf([h, h'], Unspecified, names);
    hide RowsOf, Reported, FiguresOf, Plus, WrapValue;
    TwoRows(name, FiguresOf(a), name', FiguresOf(a'));
    OnlyNode(rows, name, a);
    OnlyNode(rows, name', a');
    TwoGroups(rows, name, name');
    SumWraps(Reported(rows, name), Reported(rows, name'));
  }

  lemma OnlyNode(rows: Rows, k: string, a: SnapshotNode)
    requires Count(rows, k) == 1 && Total(FIGURES, rows, k) == FiguresOf(a)
    ensures Reported(rows, k).gpus == a.gpuCapacity
  {
    hide Total, Count;
  }

  lemma SumWraps(f: Figures, g: Figures)
    requires f.gpus == g.gpus == 0x7fff_ffff
    ensures WrapValue(Plus(f, g)).gpus == -2
  {
  }

  lemma SingleNode(h: History<Snapshot>, a: SnapshotNode, names: map<string, string>)
    requires h.message == Encoded(Snapshot([a])) && h.clusterID in names
    ensures RowOf(h, Unspecified, names) == [(names[h.clusterID], FiguresOf(a))]
  {
    hide FiguresOf;
    var row: Row<string, Figures> := [(names[h.clusterID], FiguresOf(a))];
    assert RowOf(h, Unspecified, names) == row;
  }

  /** The sum over two groups. */
  lemma TwoGroups(rows: Rows, k: string, k': string)
    requires k != k' && Keys(rows) == {k, k'}
    ensures SumOver(FIGURES, AllReported(rows), Keys(rows)) == Plus(Reported(rows, k), Reported(rows, k'))
  {
    hide Keys, Reported, SumOver, Lawful, Plus, Zeros;
    var f := AllReported(rows);
    FiguresLawful();
    SumOverRemove(FIGURES, f, {k, k'}, k');
    assert {k, k'} - {k'} == {k} && {k} - {k} == {};
    SumOverRemove(FIGURES, f, {k}, k);
    NoGroups(f);
    Zero(FIGURES, f[k]);
    PlusIs(f[k], f[k']);
  }

  lemma NoGroups(f: map<string, Figures>)
    ensures SumOver(FIGURES, f, {}) == FIGURES.zero
  {
  }
}
