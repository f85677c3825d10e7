/** Totals of a monoid-valued payload by group. */
module GroupTotals {
  import opened Seqs
  import opened Ordering
  import opened Folds
  import opened Grouping

  /** The total of a group, over all its entries in all rows. */
  ghost function Total<K, M>(m: Monoid<M>, rows: seq<Row<K, M>>, k: K): M
  {
    Sum(m, Members(rows, k))
  }

  /** What one row contributes to a group. */
  ghost function RowTotal<K, M>(m: Monoid<M>, row: Row<K, M>, k: K): M
  {
    Sum(m, Of(row, k))
  }

  lemma NoTotals<K, M>(m: Monoid<M>, k: K)
    ensures Total<K, M>(m, [], k) == m.zero && RowTotal<K, M>(m, [], k) == m.zero
  {
  }

  lemma TotalAddRow<K, M(!new)>(m: Monoid<M>, rows: seq<Row<K, M>>, row: Row<K, M>, k: K)
    requires Lawful(m)
    ensures Total(m, rows + [row], k) == m.plus(Total(m, rows, k), RowTotal(m, row, k))
  {
    hide Members, Of, Sum, Lawful;
    AddRow(rows, row, k);
    SumConcat(m, Members(rows, k), Of(row, k));
  }

  lemma RowTotalAddEntry<K, M(!new)>(m: Monoid<M>, row: Row<K, M>, entry: (K, M), k: K)
    requires Lawful(m)
    ensures RowTotal(m, row + [entry], k) == m.plus(RowTotal(m, row, k), if k == entry.0 then entry.1 else m.zero)
  {
    hide Of, Sum, Lawful;
    AddEntry(row, entry, k);
    SumAppend(m, Of(row, k), entry.1);
    Zero(m, RowTotal(m, row, k));
  }

  lemma UnhitTotal<K, M>(m: Monoid<M>, row: Row<K, M>, k: K)
    requires Hit(row, k) == 0
    ensures RowTotal(m, row, k) == m.zero
  {
    assert Of(row, k) == [];
  }

  /** A group's total does not depend on the order of the rows or of the entries inside them. */
  lemma TotalOrderIndependent<K, M(!new)>(m: Monoid<M>, rows: seq<Row<K, M>>, rows': seq<Row<K, M>>, k: K)
    requires Lawful(m) && SameUpToOrder(rows, rows')
    ensures Total(m, rows, k) == Total(m, rows', k)
  {
    OrderIndependent(rows, rows', k);
    SumPermutes(m, Members(rows, k), Members(rows', k));
  }

  // ----- conservation

  ghost function EntryValue<K, M>(entry: (K, M)): M
  {
    entry.1
  }

  /** The total of all entries, whatever their key. */
  ghost function GrandTotal<K, M>(m: Monoid<M>, rows: seq<Row<K, M>>): M
  {
    if rows == [] then m.zero
    else m.plus(GrandTotal(m, rows[..|rows| - 1]), Sum(m, Map(EntryValue, rows[|rows| - 1])))
  }

  /** The group totals along a list of keys, added up. */
  ghost function SumOfTotals<K, M>(m: Monoid<M>, rows: seq<Row<K, M>>, ks: seq<K>): M
  {
    SumAlong(m, (k: K) => Total(m, rows, k), ks)
  }

  lemma GrandTotalAddRow<K, M>(m: Monoid<M>, rows: seq<Row<K, M>>, row: Row<K, M>)
    ensures GrandTotal(m, rows + [row]) == m.plus(GrandTotal(m, rows), Sum(m, Map(EntryValue, row)))
  {
    assert (rows + [row])[..|rows|] == rows;
  }

  lemma {:induction false} RowConserves<K(!new), M(!new)>(m: Monoid<M>, row: Row<K, M>, ks: seq<K>)
    requires Lawful(m) && Distinct(ks) && RowKeys(row) <= Elements(ks)
    ensures SumAlong(m, (k: K) => RowTotal(m, row, k), ks) == Sum(m, Map(EntryValue, row))
    decreases |row|
  {
    hide Lawful, SumAlong, Distinct;
    if row == [] {
      forall k: K ensures RowTotal(m, row, k) == m.zero { NoTotals<K, M>(m, k); }
      SumAlongZero(m, (k: K) => RowTotal(m, row, k), ks);
      assert Map(EntryValue, row) == [];
    } else {
      var init, last := row[..|row| - 1], row[|row| - 1];
      assert row == init + [last];
      RowKeysAdd(init, last);
      RowConserves(m, init, ks);
      RowConservesStep(m, init, last, ks);
    }
  }

  /** The same with the totals as a list. */
  lemma RowConservesListed<K(!new), M(!new)>(m: Monoid<M>, row: Row<K, M>, ks: seq<K>) returns (totals: seq<M>)
    requires Lawful(m) && Distinct(ks) && RowKeys(row) <= Elements(ks)
    ensures |totals| == |ks| && forall i :: 0 <= i < |ks| ==> totals[i] == RowTotal(m, row, ks[i])
    ensures Sum(m, totals) == Sum(m, Map(EntryValue, row))
  {
    hide Lawful, Sum, SumAlong, RowTotal, Distinct, RowKeys, Elements;
    RowConserves(m, row, ks);
    SumAlongIsSum(m, (k: K) => RowTotal(m, row, k), ks);
    totals := Map((k: K) => RowTotal(m, row, k), ks);
  }

  lemma RowConservesStep<K(!new), M(!new)>(m: Monoid<M>, init: Row<K, M>, last: (K, M), ks: seq<K>)
    requires Lawful(m) && Distinct(ks) && last.0 in Elements(ks)
    requires SumAlong(m, (k: K) => RowTotal(m, init, k), ks) == Sum(m, Map(EntryValue, init))
    ensures SumAlong(m, (k: K) => RowTotal(m, init + [last], k), ks) == Sum(m, Map(EntryValue, init + [last]))
  {
    hide Lawful, Sum, SumAlong, RowTotal, Distinct;
    var point := (k: K) => if k == last.0 then last.1 else m.zero;
    forall k: K ensures RowTotal(m, init + [last], k) == m.plus(RowTotal(m, init, k), point(k)) {
      RowTotalAddEntry(m, init, last, k);
    }
    SumAlongPlus(m, (k: K) => RowTotal(m, init, k), point, (k: K) => RowTotal(m, init + [last], k), ks);
    SumAlongPoint(m, point, ks, last.0);
    MapAppend(EntryValue, init, last);
    SumAppend(m, Map(EntryValue, init), last.1);
  }

  /** Along any key list that lists every present key once, the group totals add up to the grand total: every
      entry is in exactly one group. */
  lemma {:induction false} GroupsConserve<K(!new), M(!new)>(m: Monoid<M>, rows: seq<Row<K, M>>, ks: seq<K>)
    requires Lawful(m) && Distinct(ks) && Keys(rows) <= Elements(ks)
    ensures SumOfTotals(m, rows, ks) == GrandTotal(m, rows)
    decreases |rows|
  {
    hide Lawful, SumAlong, Distinct;
    if rows == [] {
      forall k: K ensures Total(m, rows, k) == m.zero { NoTotals<K, M>(m, k); }
      SumAlongZero(m, (k: K) => Total(m, rows, k), ks);
    } else {
      var init, last := rows[..|rows| - 1], rows[|rows| - 1];
      assert rows == init + [last];
      KeysAddRow(init, last);
      GroupsConserve(m, init, ks);
      RowConserves(m, last, ks);
      hide Total, RowTotal, Sum;
      forall k: K ensures Total(m, rows, k) == m.plus(Total(m, init, k), RowTotal(m, last, k)) {
        TotalAddRow(m, init, last, k);
      }
      SumAlongPlus(m, (k: K) => Total(m, init, k), (k: K) => RowTotal(m, last, k), (k: K) => Total(m, rows, k), ks);
    }
  }
}
