/** What the values of a GPU usage datapoint mean, over all inputs of `CalculateGPUUsageValues`. */
module GpuTheorems {
  import opened GoInt
  import Seqs
  import opened Folds
  import opened Grouping
  import GroupTotals
  import opened Telemetry
  import opened GpuValues
  import Reals

  type Rows = seq<Row<ClusterNode, Usage>>

  // ----- maxima

  lemma {:induction false} SumMaximum(us: seq<Usage>, used: real, memory: int)
    ensures Sum(USAGES, us).maxUsed <= used <==> 0.0 <= used && forall u :: u in us ==> u.maxUsed <= used
    ensures Sum(USAGES, us).maxMemory <= memory <==> 0 <= memory && forall u :: u in us ==> u.maxMemory <= memory
  {
    if us != [] {
      var init, last := us[..|us| - 1], us[|us| - 1];
      SumMaximum(init, used, memory);
      assert us == init + [last];
      assert USAGES.plus(Sum(USAGES, init), last) == Merge(Sum(USAGES, init), last);
    }
  }

  /** A reported maximum is the least number that no observed maximum of the node exceeds, and no less than zero. */
  lemma ReportedMaximum(rows: Rows, cn: ClusterNode, used: real, memory: int)
    ensures Reported(rows, cn).maxUsed <= used
            <==> 0.0 <= used && forall u :: u in Members(rows, cn) ==> u.maxUsed <= used
    ensures Reported(rows, cn).maxMemoryGb <= InGB(memory)
            <==> 0 <= memory && forall u :: u in Members(rows, cn) ==> u.maxMemory <= memory
  {
    SumMaximum(Members(rows, cn), used, memory);
    Present(rows, cn);
    var t := GroupTotals.Total(USAGES, rows, cn);
    InGBMonotone(t.maxMemory, memory);
    InGBMonotone(0, memory);
    hide Members, Sum, Count;
  }

  lemma InGBMonotone(a: int, b: int)
    ensures InGB(a) <= InGB(b) <==> a <= b
    ensures InGB(0) == 0.0
  {
  }

  // ----- averages

  /** Every row mentions the group at most once: no message repeats a node. */
  ghost predicate AtMostOnce(rows: Rows, cn: ClusterNode)
  {
    forall row :: row in rows ==> |Of(row, cn)| <= 1
  }

  lemma OnceInEveryRow(rows: Rows, cn: ClusterNode)
    requires forall row :: row in rows ==> |Of(row, cn)| <= 1
    ensures AtMostOnce(rows, cn)
  {
  }

  lemma {:induction false} CountIsMembers(rows: Rows, cn: ClusterNode)
    requires AtMostOnce(rows, cn)
    ensures Count(rows, cn) == |Members(rows, cn)|
  {
    if rows != [] {
      var init, last := rows[..|rows| - 1], rows[|rows| - 1];
      assert rows == init + [last];
      assert last in rows;
      CountIsMembers(init, cn);
    }
  }

  lemma {:induction false} SumAtMost(us: seq<Usage>, used: real, memory: int)
    requires forall u :: u in us ==> u.sumUsed <= used && u.sumMemory <= memory
    ensures Sum(USAGES, us).sumUsed <= |us| as real * used
    ensures Sum(USAGES, us).sumMemory <= |us| * memory
  {
    if us != [] {
      var init, last := us[..|us| - 1], us[|us| - 1];
      SumAtMost(init, used, memory);
      assert last in us;
      MergeAdds(Sum(USAGES, init), last);
      OneMore(|init|, used, memory);
    }
  }

  lemma MergeAdds(a: Usage, b: Usage)
    ensures USAGES.plus(a, b).sumUsed == a.sumUsed + b.sumUsed
    ensures USAGES.plus(a, b).sumMemory == a.sumMemory + b.sumMemory
  {
  }

  lemma OneMore(n: nat, used: real, memory: int)
    ensures (n + 1) as real * used == n as real * used + used
    ensures (n + 1) * memory == n * memory + memory
  {
  }

  /** An entry whose averages do not exceed its maxima. */
  predicate Consistent(u: Usage)
  {
    u.sumUsed <= u.maxUsed && u.sumMemory <= u.maxMemory
  }

  /** A node's memory average does not exceed its maximum exactly if the sum that the code holds stays below the
      count times one byte more than the maximum. */
  lemma MemoryAverageAtMostMaximumIff(rows: Rows, cn: ClusterNode)
    requires Count(rows, cn) > 0
    ensures var (t, n) := (GroupTotals.Total(USAGES, rows, cn), Count(rows, cn));
            Reported(rows, cn).avgMemoryGb <= Reported(rows, cn).maxMemoryGb
            <==> Wrap64(t.sumMemory) < n * (t.maxMemory + 1)
  {
    hide Count, GroupTotals.Total, InGB, Wrap64;
    var t, n := GroupTotals.Total(USAGES, rows, cn), Count(rows, cn);
    InGBMonotone(Quot(Wrap64(t.sumMemory), n), t.maxMemory);
    QuotAtMost(Wrap64(t.sumMemory), n, t.maxMemory);
  }

  lemma QuotAtMost(a: int, n: int, m: int)
    requires n > 0 && m >= 0
    ensures Quot(a, n) <= m <==> a < n * (m + 1)
  {
    Scale(n, 0, m + 1);
    if a >= 0 {
      DivUnique(a, n, a / n);
      assert n * (m + 1) == n * m + n;
      if a / n <= m {
        Scale(n, a / n, m);
      } else {
        Scale(n, m + 1, a / n);
      }
    } else {
      DivMonotone(0, -a, n);
    }
  }

  /** If in every message the averages do not exceed the maxima and no node is repeated, then neither does a
      reported average exceed the reported maximum. An int64 overflow of the memory sum can only lower the average,
      unless the sum underflows. */
  lemma AverageAtMostMaximum(rows: Rows, cn: ClusterNode)
    requires AtMostOnce(rows, cn)
    requires forall u :: u in Members(rows, cn) ==> Consistent(u)
    requires -TWO_63 <= GroupTotals.Total(USAGES, rows, cn).sumMemory
    ensures Reported(rows, cn).avgUsed <= Reported(rows, cn).maxUsed
    ensures Reported(rows, cn).avgMemoryGb <= Reported(rows, cn).maxMemoryGb
  {
    var us, t, n := Members(rows, cn), GroupTotals.Total(USAGES, rows, cn), Count(rows, cn);
    hide Members, Count, Sum, InGB, AtMostOnce;
    SumMaximum(us, t.maxUsed, t.maxMemory);
    SumAtMost(us, t.maxUsed, t.maxMemory);
    CountIsMembers(rows, cn);
    hide Consistent;
    if n > 0 {
      AverageBelow(t, n);
      InGBMonotone(Quot(Wrap64(t.sumMemory), n), t.maxMemory);
    }
  }

  lemma AverageBelow(t: Usage, n: nat)
    requires n > 0
    requires t.sumUsed <= n as real * t.maxUsed
    requires t.sumMemory <= n * t.maxMemory && -TWO_63 <= t.sumMemory
    ensures t.sumUsed / n as real <= t.maxUsed
    ensures Quot(Wrap64(t.sumMemory), n) <= t.maxMemory
  {
    assert Wrap64(t.sumMemory) <= t.sumMemory;
    QuotMonotone(Wrap64(t.sumMemory), n * t.maxMemory, n);
    DivUnique(n * t.maxMemory, n, t.maxMemory);
    Reals.QuotientAtMost(t.sumUsed, n as real, t.maxUsed);
  }

  /** An input on which the memory sum underflows: three histories of one node with no maximum and an average of
      -2^62 bytes, consistent each, are reported with an average above the maximum. */
  lemma UnderflowingMemory(h: History<GpuTelemetry>, n: GpuNode, name: string)
    requires h.message == Encoded(GpuTelemetry([n]))
    requires n.maxMemoryUsed == 0 && n.avgMemoryUsed == -0x4000_0000_0000_0000
    ensures var rows := RowsOf(Seqs.Copies([h], 3), map[h.clusterID := name]);
            var cn := ClusterNode(name, n.name);
            && UsageOf(n).sumMemory <= UsageOf(n).maxMemory
            && AtMostOnce(rows, cn)
            && Reported(rows, cn).maxMemoryGb < Reported(rows, cn).avgMemoryGb
  {
    var names, cn, u := map[h.clusterID := name], ClusterNode(name, n.name), UsageOf(n);
    var row: Row<ClusterNode, Usage> := [(cn, u)];
    assert RowOf(h, names) == row;
    assert RowsOf([h], names) == [row];
    var rows := RowsOf(Seqs.Copies([h], 3), names);
    RowsOfCopies([h], 3, names);
    hide RowsOf;
    CopiedRow(row, cn, u);
    UnderflowReported(rows, cn, u);
  }

  lemma UnderflowReported(rows: Rows, cn: ClusterNode, u: Usage)
    requires Count(rows, cn) == 3
    requires var t := GroupTotals.Total(USAGES, rows, cn); t.sumMemory == 3 * u.sumMemory && t.maxMemory == u.maxMemory
    requires u.maxMemory == 0 && u.sumMemory == -0x4000_0000_0000_0000
    ensures Reported(rows, cn).maxMemoryGb < Reported(rows, cn).avgMemoryGb
  {
    hide Count, GroupTotals.Total;
    MemoryAverageAtMostMaximumIff(rows, cn);
  }

  lemma CopiedRow(row: Row<ClusterNode, Usage>, cn: ClusterNode, u: Usage)
    requires row == [(cn, u)]
    ensures var rows := Seqs.Copies([row], 3);
            && Count(rows, cn) == 3 && AtMostOnce(rows, cn)
            && GroupTotals.Total(USAGES, rows, cn).sumMemory == 3 * u.sumMemory
            && GroupTotals.Total(USAGES, rows, cn).maxMemory == u.maxMemory
  {
    assert [] + [row] == [row] && [] + [(cn, u)] == row;
    AddEntry([], (cn, u), cn);
    assert Of(row, cn) == [u] && |Of(row, cn)| == 1;
    assert Hit(row, cn) == 1;
    AddRow([], row, cn);
    NoRows<ClusterNode, Usage>(cn);
    assert Members([row], cn) == [u] && Count([row], cn) == 1;
    assert Sum(USAGES, [u]) == u by {
      UsagesLawful();
      SumAppend(USAGES, [], u);
      assert [] + [u] == [u];
    }
    Seqs.CopiesElements([row], 3);
    assert forall r :: r in Seqs.Copies([row], 3) ==> |Of(r, cn)| <= 1;
    hide *;
    UsagesLawful();
    CopiesCount([row], 3, cn);
    SumCopies(USAGES, [u], 3);
    RepeatUsage(3, u);
    TotalIs(Seqs.Copies([row], 3), cn);
    OnceInEveryRow(Seqs.Copies([row], 3), cn);
  }

  lemma TotalIs(rows: Rows, cn: ClusterNode)
    ensures GroupTotals.Total(USAGES, rows, cn) == Sum(USAGES, Members(rows, cn))
  {
  }

  // ----- replication

  lemma {:induction false} RepeatUsage(n: nat, u: Usage)
    ensures var r := Repeat(USAGES, n, u);
            && r.sumUsed == n as real * u.sumUsed && r.sumMemory == n * u.sumMemory
            && (n > 0 ==> r.maxUsed == u.maxUsed && r.maxMemory == u.maxMemory)
  {
    if n > 0 {
      RepeatUsage(n - 1, u);
      assert USAGES.plus(Repeat(USAGES, n - 1, u), u) == Merge(Repeat(USAGES, n - 1, u), u);
      assert n * u.sumMemory == (n - 1) * u.sumMemory + u.sumMemory;
      assert n as real * u.sumUsed == (n - 1) as real * u.sumUsed + u.sumUsed;
    }
  }

  lemma MeanOfCopies(t: Usage, c: nat, n: nat, r: Usage)
    requires c > 0 && n > 0
    requires r.sumUsed == n as real * t.sumUsed && r.sumMemory == n * t.sumMemory
    ensures n * c > 0
    ensures r.sumUsed / (n * c) as real == t.sumUsed / c as real
    ensures Quot(r.sumMemory, n * c) == Quot(t.sumMemory, c)
  {
    QuotScale(t.sumMemory, c, n);
    var x, d, k := t.sumUsed, c as real, n as real;
    assert (n * c) as real == k * d;
    assert (x / d) * (k * d) == ((x / d) * d) * k;
    assert (k * x) / (k * d) == x / d;
  }

  /** Repeating a bucket's histories any number of times leaves every maximum and average unchanged, as long as the
      larger memory sum still fits an int64. */
  lemma ReplicationInvariant(rows: Rows, n: nat, cn: ClusterNode)
    requires n >= 1
    requires var t := GroupTotals.Total(USAGES, rows, cn);
             Wrap64(t.sumMemory) == t.sumMemory && Wrap64(n * t.sumMemory) == n * t.sumMemory
    ensures Reported(Seqs.Copies(rows, n), cn) == Reported(rows, cn)
  {
    hide Members, Count, Seqs.Copies, Sum, Lawful, Repeat;
    CopiesCount(rows, n, cn);
    UsagesLawful();
    SumCopies(USAGES, Members(rows, cn), n);
    var c, t := Count(rows, cn), GroupTotals.Total(USAGES, rows, cn);
    RepeatUsage(n, t);
    if c > 0 {
      MeanOfCopies(t, c, n, Repeat(USAGES, n, t));
    }
  }

  lemma {:induction false} RowsOfCopies(hs: seq<History<GpuTelemetry>>, n: nat, names: map<string, string>)
    ensures RowsOf(Seqs.Copies(hs, n), names) == Seqs.Copies(RowsOf(hs, names), n)
    decreases n
  {
    if n > 0 {
      RowsOfCopies(hs, n - 1, names);
    }
  }

  /** Repeating a bucket's histories leaves its whole datapoint unchanged. */
  lemma ValuesReplicate(hs: seq<History<GpuTelemetry>>, n: nat, names: map<string, string>, cns: seq<ClusterNode>)
    requires n >= 1
    requires forall cn :: var t := GroupTotals.Total(USAGES, RowsOf(hs, names), cn);
               Wrap64(t.sumMemory) == t.sumMemory && Wrap64(n * t.sumMemory) == n * t.sumMemory
    ensures Values(RowsOf(Seqs.Copies(hs, n), names), cns) == Values(RowsOf(hs, names), cns)
  {
    var rows := RowsOf(hs, names);
    RowsOfCopies(hs, n, names);
    hide RowsOf, GroupTotals.Total, Wrap64, Reported, Seqs.Copies;
    forall cn ensures Reported(Seqs.Copies(rows, n), cn) == Reported(rows, cn) {
      ReplicationInvariant(rows, n, cn);
    }
  }
}
