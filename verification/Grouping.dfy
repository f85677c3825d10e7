/** Keyed rows: one row per stored history, one keyed entry per node of its message. A bucket's answer is a
    function, for every key, of the entries under the key and of the number of rows that mention it. */
module Grouping {
  import opened Seqs

  type Row<K, P> = seq<(K, P)>

  /** The entries of one row under `k`, in row order. */
  ghost function Of<K, P>(row: Row<K, P>, k: K): (r: seq<P>)
  {
    if row == [] then []
    else Of(row[..|row| - 1], k) + if row[|row| - 1].0 == k then [row[|row| - 1].1] else []
  }

  lemma {:induction false} OfMentions<K, P>(row: Row<K, P>, k: K)
    ensures Of(row, k) != [] <==> exists i :: 0 <= i < |row| && row[i].0 == k
  {
    if row != [] {
      var init := row[..|row| - 1];
      OfMentions(init, k);
      if i :| 0 <= i < |row| && row[i].0 == k {
        assert i < |init| ==> init[i].0 == k;
      }
    }
  }

  /** The entries of all rows under `k`. */
  ghost function Members<K, P>(rows: seq<Row<K, P>>, k: K): seq<P>
  {
    if rows == [] then [] else Members(rows[..|rows| - 1], k) + Of(rows[|rows| - 1], k)
  }

  ghost function Hit<K, P>(row: Row<K, P>, k: K): nat
  {
    if Of(row, k) != [] then 1 else 0
  }

  /** The number of rows with at least one entry under `k`. */
  ghost function Count<K, P>(rows: seq<Row<K, P>>, k: K): nat
  {
    if rows == [] then 0 else Count(rows[..|rows| - 1], k) + Hit(rows[|rows| - 1], k)
  }

  ghost function Keys<K, P>(rows: seq<Row<K, P>>): set<K>
  {
    set i, j | 0 <= i < |rows| && 0 <= j < |rows[i]| :: rows[i][j].0
  }

  ghost function RowKeys<K, P>(row: Row<K, P>): set<K>
  {
    set j | 0 <= j < |row| :: row[j].0
  }

  lemma RowKeysAdd<K, P>(row: Row<K, P>, entry: (K, P))
    ensures RowKeys(row + [entry]) == RowKeys(row) + {entry.0}
  {
    var all: Row<K, P> := row + [entry];
    forall k | k in RowKeys(row) + {entry.0} ensures k in RowKeys(all) {
      if k in RowKeys(row) {
        var j :| 0 <= j < |row| && row[j].0 == k;
        assert all[j].0 == k;
      } else {
        assert all[|row|].0 == k;
      }
    }
  }

  lemma KeysAddRow<K, P>(rows: seq<Row<K, P>>, row: Row<K, P>)
    ensures Keys(rows + [row]) == Keys(rows) + RowKeys(row)
  {
    forall k ensures k in Keys(rows + [row]) <==> k in Keys(rows) + RowKeys(row) {
      AddRowKeys(rows, row, k);
      OfMentions(row, k);
    }
  }

  ghost function Bag<K, P>(row: Row<K, P>): multiset<(K, P)>
  {
    multiset(row)
  }

  /** The same rows up to the order of the rows and the order of the entries inside every row. */
  ghost predicate SameUpToOrder<K, P>(rows: seq<Row<K, P>>, rows': seq<Row<K, P>>)
  {
    multiset(Map(Bag, rows)) == multiset(Map(Bag, rows'))
  }

  lemma AddRow<K, P>(rows: seq<Row<K, P>>, row: Row<K, P>, k: K)
    ensures Members(rows + [row], k) == Members(rows, k) + Of(row, k)
    ensures Count(rows + [row], k) == Count(rows, k) + Hit(row, k)
  {
    assert (rows + [row])[..|rows|] == rows;
  }

  lemma AddEmptyRow<K, P>(rows: seq<Row<K, P>>, k: K)
    ensures Members(rows + [[]], k) == Members(rows, k)
    ensures Count(rows + [[]], k) == Count(rows, k)
  {
    AddRow(rows, [], k);
    assert Of<K, P>([], k) == [];
  }

  lemma AddRowKeys<K, P>(rows: seq<Row<K, P>>, row: Row<K, P>, k: K)
    ensures k in Keys(rows + [row]) <==> k in Keys(rows) || Of(row, k) != []
  {
    var all: seq<Row<K, P>> := rows + [row];
    OfMentions(row, k);
    if k in Keys(rows) {
      var i, j :| 0 <= i < |rows| && 0 <= j < |rows[i]| && rows[i][j].0 == k;
      assert all[i][j].0 == k;
    }
    if Of(row, k) != [] {
      var j :| 0 <= j < |row| && row[j].0 == k;
      assert all[|rows|][j].0 == k;
    }
  }

  lemma AddEntry<K, P>(row: Row<K, P>, entry: (K, P), k: K)
    ensures Of(row + [entry], k) == if entry.0 == k then Of(row, k) + [entry.1] else Of(row, k)
  {
    assert (row + [entry])[..|row|] == row;
  }

  /** One more entry in the last row: it joins its key's entries, and its key counts the row once. */
  lemma ExtendRow<K, P>(rows: seq<Row<K, P>>, part: Row<K, P>, entry: (K, P), k: K)
    ensures Members(rows + [part + [entry]], k)
            == if entry.0 == k then Members(rows + [part], k) + [entry.1] else Members(rows + [part], k)
    ensures Count(rows + [part + [entry]], k)
            == Count(rows + [part], k) + if entry.0 == k && Hit(part, k) == 0 then 1 else 0
    ensures Hit(part + [entry], k) == if entry.0 == k then 1 else Hit(part, k)
  {
    hide Count, Members, Of;
    AddRow(rows, part, k);
    AddRow(rows, part + [entry], k);
    AddEntry(part, entry, k);
  }

  /** A key is present exactly if some row mentions it, so every divisor is at least one. */
  lemma {:induction false} Present<K, P>(rows: seq<Row<K, P>>, k: K)
    ensures k in Keys(rows) <==> Count(rows, k) >= 1
    ensures k in Keys(rows) <==> Members(rows, k) != []
    ensures Count(rows, k) <= |Members(rows, k)|
  {
    if rows != [] {
      var init := rows[..|rows| - 1];
      Present(init, k);
      assert rows == init + [rows[|rows| - 1]];
      AddRowKeys(init, rows[|rows| - 1], k);
    }
  }

  lemma {:induction false} Concat<K, P>(a: seq<Row<K, P>>, b: seq<Row<K, P>>, k: K)
    ensures Members(a + b, k) == Members(a, k) + Members(b, k)
    ensures Count(a + b, k) == Count(a, k) + Count(b, k)
  {
    hide Count, Members, Of, Hit;
    if b == [] {
      assert a + b == a;
      NoRows<K, P>(k);
    } else {
      var init, last := b[..|b| - 1], b[|b| - 1];
      assert b == init + [last];
      Concat(a, init, k);
      AddRowAfter(a, init, last, k);
      AddRow(init, last, k);
    }
  }

  lemma AddRowAfter<K, P>(a: seq<Row<K, P>>, init: seq<Row<K, P>>, last: Row<K, P>, k: K)
    ensures Members(a + (init + [last]), k) == Members(a + init, k) + Of(last, k)
    ensures Count(a + (init + [last]), k) == Count(a + init, k) + Hit(last, k)
  {
    hide Count, Members, Of, Hit;
    AddRow(a + init, last, k);
    assert a + (init + [last]) == (a + init) + [last];
  }

  lemma {:induction false} OfCounts<K, P>(row: Row<K, P>, k: K, p: P)
    ensures multiset(Of(row, k))[p] == multiset(row)[(k, p)]
  {
    if row != [] {
      var init, last := row[..|row| - 1], row[|row| - 1];
      assert row == init + [last];
      OfCounts(init, k, p);
      AddEntry(init, last, k);
      hide Of;
    }
  }

  /** What a row contributes to a group depends on its entries only as a multiset. */
  lemma OfPermutes<K, P>(row: Row<K, P>, row': Row<K, P>, k: K)
    requires multiset(row) == multiset(row')
    ensures multiset(Of(row, k)) == multiset(Of(row', k))
    ensures Hit(row, k) == Hit(row', k)
  {
    var a, b := multiset(Of(row, k)), multiset(Of(row', k));
    forall p: P ensures a[p] == b[p] {
      OfCounts(row, k, p);
      OfCounts(row', k, p);
    }
    Extensional(a, b);
    assert |a| == |b|;
  }

  lemma RemoveRow<K, P>(rows: seq<Row<K, P>>, i: nat, k: K)
    requires i < |rows|
    ensures multiset(Members(rows, k)) == multiset(Members(Remove(rows, i), k)) + multiset(Of(rows[i], k))
    ensures Count(rows, k) == Count(Remove(rows, i), k) + Hit(rows[i], k)
  {
    hide Count, Members, Of, Hit;
    var a, b := rows[..i], rows[i + 1..];
    assert rows == (a + [rows[i]]) + b;
    Concat(a + [rows[i]], b, k);
    AddRow(a, rows[i], k);
    Concat(a, b, k);
  }

  /** Order independence: permuting rows, and permuting the entries inside rows, changes neither the entries
      under a key (as a multiset) nor the number of rows that mention it. */
  lemma {:induction false} OrderIndependent<K, P>(rows: seq<Row<K, P>>, rows': seq<Row<K, P>>, k: K)
    requires SameUpToOrder(rows, rows')
    ensures multiset(Members(rows, k)) == multiset(Members(rows', k))
    ensures Count(rows, k) == Count(rows', k)
    decreases |rows|
  {
    hide Count, Members, Of, Hit;
    if rows == [] {
      assert |multiset(Map(Bag, rows'))| == |rows'|;
    } else {
      var bags, bags' := Map(Bag, rows), Map(Bag, rows');
      var j := Counterpart(bags, bags');
      assert Map(Bag, Remove(rows, 0)) == bags[1..];
      assert Map(Bag, Remove(rows', j)) == Remove(bags', j);
      OrderIndependent(Remove(rows, 0), Remove(rows', j), k);
      RemoveRow(rows, 0, k);
      RemoveRow(rows', j, k);
      OfPermutes(rows[0], rows'[j], k);
    }
  }

  lemma KeysOrderIndependent<K, P>(rows: seq<Row<K, P>>, rows': seq<Row<K, P>>)
    requires SameUpToOrder(rows, rows')
    ensures Keys(rows) == Keys(rows')
  {
    forall k ensures k in Keys(rows) <==> k in Keys(rows') {
      OrderIndependent(rows, rows', k);
      Present(rows, k);
      Present(rows', k);
    }
  }

  lemma {:induction false} CopiesCount<K, P>(rows: seq<Row<K, P>>, n: nat, k: K)
    ensures Count(Copies(rows, n), k) == n * Count(rows, k)
    ensures Members(Copies(rows, n), k) == Copies(Members(rows, k), n)
  {
    hide Count, Members;
    if n == 0 {
      assert Copies(rows, 0) == [];
      NoRows<K, P>(k);
    } else {
      CopiesCount(rows, n - 1, k);
      Concat(Copies(rows, n - 1), rows, k);
      var c := Count(rows, k);
      assert (n - 1) * c + c == n * c;
    }
  }

  lemma NoRows<K, P>(k: K)
    ensures Members<K, P>([], k) == [] && Count<K, P>([], k) == 0
  {
  }

  /** Every entry of a group is an entry of some row. */
  lemma {:induction false} MembersComeFromRows<K, P>(rows: seq<Row<K, P>>, k: K, p: P)
    requires p in Members(rows, k)
    ensures exists row :: row in rows && (k, p) in row
    decreases |rows|
  {
    var init, last := rows[..|rows| - 1], rows[|rows| - 1];
    if p in Members(init, k) {
      MembersComeFromRows(init, k, p);
    } else {
      OfCounts(last, k, p);
      assert p in multiset(Of(last, k));
      assert (k, p) in multiset(last);
      assert last in rows;
    }
  }

  lemma {:induction false} MemberOfRow<K, P>(row: Row<K, P>, k: K, p: P)
    requires (k, p) in row
    ensures p in Of(row, k)
  {
    OfCounts(row, k, p);
    assert (k, p) in multiset(row);
    assert p in multiset(Of(row, k));
  }

  lemma {:induction false} MemberOfRows<K, P>(rows: seq<Row<K, P>>, row: Row<K, P>, k: K, p: P)
    requires row in rows && (k, p) in row
    ensures p in Members(rows, k)
  {
    if row == rows[|rows| - 1] {
      MemberOfRow(row, k, p);
    } else {
      MemberOfRows(rows[..|rows| - 1], row, k, p);
    }
  }

  /** The entries under a key, in terms of what the entries were made from. */
  lemma {:induction false} OfMap<N(!new), K, P>(key: N -> K, value: N -> P, p: N -> bool, ns: seq<N>, row: Row<K, P>,
                                                k: K)
    requires |row| == |ns| && forall i :: 0 <= i < |ns| ==> row[i] == (key(ns[i]), value(ns[i]))
    requires forall n :: n in ns ==> (p(n) <==> key(n) == k)
    ensures Of(row, k) == Map(value, Filter(p, ns))
    decreases |ns|
  {
    if ns != [] {
      var init, last := ns[..|ns| - 1], ns[|ns| - 1];
      assert ns == init + [last] && last in ns;
      OfMap(key, value, p, init, row[..|ns| - 1], k);
      MapAppend(value, Filter(p, init), last);
    }
  }
}
