/** The running statistics both list handlers keep per group: how many histories contain the group, and the
    accumulated figures of its nodes, in machine arithmetic. */
module Tally {
  import Folds
  import opened Grouping
  import GroupTotals
  import opened Telemetry

  datatype Stat<M> = Stat(hsCount: nat, figures: M)

  /** Machine accumulation: `wrap` is what the fields hold for a mathematical total, and wrapping early or late
      makes no difference. */
  datatype Accumulator<!M> = Accumulator(m: Folds.Monoid<M>, wrap: M -> M)

  ghost predicate Sound<M(!new)>(acc: Accumulator<M>)
  {
    && Folds.Lawful(acc.m)
    && acc.wrap(acc.m.zero) == acc.m.zero
    && forall a, b :: acc.wrap(acc.m.plus(acc.wrap(a), b)) == acc.wrap(acc.m.plus(a, b))
  }

  lemma Absorbs<M(!new)>(acc: Accumulator<M>, a: M, b: M)
    requires Sound(acc)
    ensures acc.wrap(acc.m.plus(acc.wrap(a), b)) == acc.wrap(acc.m.plus(a, b))
    ensures acc.wrap(acc.m.zero) == acc.m.zero
    ensures Folds.Lawful(acc.m)
  {
  }

  function StatOf<K, M>(acc: Accumulator<M>, stats: map<K, Stat<M>>, k: K): Stat<M>
  {
    if k in stats then stats[k] else Stat(0, acc.m.zero)
  }

  /** One more node in a group, and one more history if it is the group's first node of that history. */
  function AddNode<M>(acc: Accumulator<M>, s: Stat<M>, first: bool, f: M): Stat<M>
  {
    Stat(if first then s.hsCount + 1 else s.hsCount, acc.wrap(acc.m.plus(s.figures, f)))
  }

  /** What the statistics of a group mean. */
  ghost function TallyOf<K, M>(acc: Accumulator<M>, rows: seq<Row<K, M>>, k: K): Stat<M>
  {
    Stat(Count(rows, k), acc.wrap(GroupTotals.Total(acc.m, rows, k)))
  }

  ghost predicate Tallies<K(!new), M>(acc: Accumulator<M>, stats: map<K, Stat<M>>, rows: seq<Row<K, M>>)
  {
    && (forall k :: k in stats <==> Count(rows, k) >= 1)
    && (forall k :: k in stats ==> stats[k] == TallyOf(acc, rows, k))
  }

  lemma NoTallies<K(!new), M>(acc: Accumulator<M>)
    ensures Tallies<K, M>(acc, map[], [])
  {
  }

  lemma TalliesPositive<K(!new), M>(acc: Accumulator<M>, stats: map<K, Stat<M>>, rows: seq<Row<K, M>>)
    requires Tallies(acc, stats, rows)
    ensures forall k :: k in stats ==> stats[k].hsCount >= 1
  {
  }

  lemma TalliesKeys<K(!new), M>(acc: Accumulator<M>, stats: map<K, Stat<M>>, rows: seq<Row<K, M>>)
    requires Tallies(acc, stats, rows)
    ensures stats.Keys == Keys(rows)
  {
    hide Keys, Count, TallyOf;
    forall k ensures k in stats <==> k in Keys(rows) {
      Present(rows, k);
    }
  }

  lemma OpenRow<K(!new), M>(acc: Accumulator<M>, stats: map<K, Stat<M>>, rows: seq<Row<K, M>>)
    requires Tallies(acc, stats, rows)
    ensures Tallies(acc, stats, rows + [[]])
  {
    hide Members, Count, Folds.Sum;
    forall k ensures TallyOf(acc, rows + [[]], k) == TallyOf(acc, rows, k) && Count(rows + [[]], k) == Count(rows, k) {
      AddEmptyRow(rows, k);
    }
  }

  lemma TallyLookup<K(!new), M(!new)>(acc: Accumulator<M>, stats: map<K, Stat<M>>, rows: seq<Row<K, M>>, k: K)
    requires Sound(acc) && Tallies(acc, stats, rows)
    ensures StatOf(acc, stats, k) == TallyOf(acc, rows, k)
  {
    Present(rows, k);
  }

  lemma TallyOther<K, M>(acc: Accumulator<M>, rows: seq<Row<K, M>>, part: Row<K, M>, key: K, f: M, k: K)
    requires k != key
    ensures TallyOf(acc, rows + [part + [(key, f)]], k) == TallyOf(acc, rows + [part], k)
  {
    hide Members, Count, Folds.Sum;
    ExtendRow(rows, part, (key, f), k);
  }

  lemma TallyKey<K(!new), M(!new)>(acc: Accumulator<M>, rows: seq<Row<K, M>>, part: Row<K, M>, key: K, f: M)
    requires Sound(acc)
    ensures TallyOf(acc, rows + [part + [(key, f)]], key)
            == AddNode(acc, TallyOf(acc, rows + [part], key), key !in RowKeys(part), f)
    ensures Count(rows + [part + [(key, f)]], key) >= 1
  {
    hide Members, Count, Folds.Sum, Sound, Keys;
    ExtendRow(rows, part, (key, f), key);
    OfMentions(part, key);
    Present(rows + [part + [(key, f)]], key);
    Folds.SumAppend(acc.m, Members(rows + [part], key), f);
    Absorbs(acc, GroupTotals.Total(acc.m, rows + [part], key), f);
  }

  /** Processing one more node keeps the statistics exact. */
  lemma TallyEntry<K(!new), M(!new)>(acc: Accumulator<M>, stats: map<K, Stat<M>>, rows: seq<Row<K, M>>,
                                     part: Row<K, M>, key: K, f: M)
    requires Sound(acc) && Tallies(acc, stats, rows + [part])
    ensures Tallies(acc, stats[key := AddNode(acc, StatOf(acc, stats, key), key !in RowKeys(part), f)],
                    rows + [part + [(key, f)]])
  {
    hide *;
    var before, after := rows + [part], rows + [part + [(key, f)]];
    TallyLookup(acc, stats, before, key);
    TallyKey(acc, rows, part, key, f);
    forall k | k != key ensures TallyOf(acc, after, k) == TallyOf(acc, before, k) {
      TallyOther(acc, rows, part, key, f, k);
    }
    TalliesUpdate(acc, stats, before, after, key);
  }

  lemma TalliesUpdate<K(!new), M(!new)>(acc: Accumulator<M>, stats: map<K, Stat<M>>, before: seq<Row<K, M>>,
                                        after: seq<Row<K, M>>, key: K)
    requires Tallies(acc, stats, before)
    requires Count(after, key) >= 1
    requires forall k :: k != key ==> TallyOf(acc, after, k) == TallyOf(acc, before, k)
    ensures Tallies(acc, stats[key := TallyOf(acc, after, key)], after)
  {
    hide Count, GroupTotals.Total;
    forall k | k != key ensures Count(after, k) == Count(before, k) {
      assert TallyOf(acc, after, k) == TallyOf(acc, before, k);
    }
  }

  // ----- the loop over the nodes of one history

  /** `row` pairs every node that has a key with its figures. */
  ghost predicate RowFor<N(!new), K, M>(key: N -> Result<K>, figures: N -> M, nodes: seq<N>, row: Row<K, M>)
  {
    && |row| == |nodes|
    && forall j :: 0 <= j < |nodes| && key(nodes[j]).Success? ==> row[j] == (key(nodes[j]).value, figures(nodes[j]))
  }

  lemma RowPrefix<N(!new), K, M>(key: N -> Result<K>, figures: N -> M, nodes: seq<N>, row: Row<K, M>, j: nat)
    requires RowFor(key, figures, nodes, row) && j < |nodes| && key(nodes[j]).Success?
    ensures row[..j + 1] == row[..j] + [(key(nodes[j]).value, figures(nodes[j]))]
    ensures RowKeys(row[..j + 1]) == RowKeys(row[..j]) + {key(nodes[j]).value}
  {
    RowKeysAdd(row[..j], (key(nodes[j]).value, figures(nodes[j])));
  }

  /** Adds every node of a history to its group with the update `add`; every group counts the history once. Stops
      at the first node without a key. */
  method GroupNodes<N(!new), K(==, !new), M(!new)>(
    ghost acc: Accumulator<M>, blank: Stat<M>, key: N -> Result<K>, ghost figures: N -> M,
    add: (Stat<M>, bool, N) -> Stat<M>, stats0: map<K, Stat<M>>, nodes: seq<N>,
    ghost rows: seq<Row<K, M>>, ghost row: Row<K, M>)
    returns (r: Result<map<K, Stat<M>>>)
    requires Sound(acc) && blank == Stat(0, acc.m.zero)
    requires forall s, first, n :: add(s, first, n) == AddNode(acc, s, first, figures(n))
    requires Tallies(acc, stats0, rows) && RowFor(key, figures, nodes, row)
    ensures match r
            case Success(stats) => Tallies(acc, stats, rows + [row]) && forall n :: n in nodes ==> key(n).Success?
            case Failure(e) => exists n :: n in nodes && key(n) == Failure(e)
  {
    hide Sound, Tallies, RowFor, AddNode, RowKeys;
    RowWhole(key, figures, nodes, row);
    var stats := stats0;
    var found: set<K> := {};
    OpenRow(acc, stats, rows);
    NoKeys(row);
    for j := 0 to |nodes|
      invariant Tallies(acc, stats, rows + [row[..j]])
      invariant found == RowKeys(row[..j])
      invariant forall i :: 0 <= i < j ==> key(nodes[i]).Success?
    {
      var k := key(nodes[j]);
      if k.Failure? {
        return Failure(k.error);
      }
      var v := k.value;
      RowPrefix(key, figures, nodes, row, j);
      TallyEntry(acc, stats, rows, row[..j], v, figures(nodes[j]));
      var s := if v in stats then stats[v] else blank;
      stats := stats[v := add(s, v !in found, nodes[j])];
      found := found + {v};
    }
    return Success(stats);
  }

  lemma NoKeys<K, M>(row: Row<K, M>)
    ensures row[..0] == [] && RowKeys(row[..0]) == {}
  {
  }

  lemma RowWhole<N(!new), K, M>(key: N -> Result<K>, figures: N -> M, nodes: seq<N>, row: Row<K, M>)
    requires RowFor(key, figures, nodes, row)
    ensures |row| == |nodes| && row[..|nodes|] == row
  {
  }

  // ----- averaging

  type Positive = n: int | n > 0 witness 1

  function Averaged<M>(divide: (M, Positive) -> M, s: Stat<M>): Stat<M>
    requires s.hsCount >= 1
  {
    s.(figures := divide(s.figures, s.hsCount))
  }

  /** Divides every group in place, in whatever order the map yields them. */
  method AverageAll<K(==, !new), M>(divide: (M, Positive) -> M, tallies: map<K, Stat<M>>)
    returns (stats: map<K, Stat<M>>)
    requires forall k :: k in tallies ==> tallies[k].hsCount >= 1
    ensures stats == map k | k in tallies :: Averaged(divide, tallies[k])
  {
    stats := tallies;
    var rest := stats.Keys;
    while rest != {}
      invariant rest <= stats.Keys == tallies.Keys
      invariant forall k :: k in stats ==> stats[k] == if k in rest then tallies[k] else Averaged(divide, tallies[k])
    {
      var k :| k in rest;
      stats := stats[k := Averaged(divide, stats[k])];
      rest := rest - {k};
    }
  }
}
