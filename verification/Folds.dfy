/** Totals in a commutative monoid: over a list, over a set of map keys, and along a list of keys. The laws are
    used one instance at a time, through the small lemmas below. */
module Folds {
  import opened Seqs
  import opened Ordering

  datatype Monoid<!M> = Monoid(plus: (M, M) -> M, zero: M)

  ghost predicate Lawful<M(!new)>(m: Monoid<M>)
  {
    && (forall a :: m.plus(a, m.zero) == a)
    && (forall a, b :: m.plus(a, b) == m.plus(b, a))
    && (forall a, b, c :: m.plus(m.plus(a, b), c) == m.plus(a, m.plus(b, c)))
  }

  lemma Zero<M(!new)>(m: Monoid<M>, a: M)
    requires Lawful(m)
    ensures m.plus(a, m.zero) == a && m.plus(m.zero, a) == a
  {
  }

  lemma Assoc<M(!new)>(m: Monoid<M>, a: M, b: M, c: M)
    requires Lawful(m)
    ensures m.plus(m.plus(a, b), c) == m.plus(a, m.plus(b, c))
  {
  }

  lemma Comm<M(!new)>(m: Monoid<M>, a: M, b: M)
    requires Lawful(m)
    ensures m.plus(a, b) == m.plus(b, a)
  {
  }

  lemma Swap<M(!new)>(m: Monoid<M>, a: M, b: M, c: M)
    requires Lawful(m)
    ensures m.plus(m.plus(a, b), c) == m.plus(m.plus(a, c), b)
  {
    hide Lawful;
    Assoc(m, a, b, c);
    Comm(m, b, c);
    Assoc(m, a, c, b);
  }

  lemma Exchange<M(!new)>(m: Monoid<M>, a: M, b: M, c: M, d: M)
    requires Lawful(m)
    ensures m.plus(m.plus(a, b), m.plus(c, d)) == m.plus(m.plus(a, c), m.plus(b, d))
  {
    hide Lawful;
    Assoc(m, m.plus(a, b), c, d);
    Swap(m, a, b, c);
    Assoc(m, m.plus(a, c), b, d);
  }

  // ----- over a list

  ghost function Sum<M>(m: Monoid<M>, s: seq<M>): M
  {
    if s == [] then m.zero else m.plus(Sum(m, s[..|s| - 1]), s[|s| - 1])
  }

  lemma SumAppend<M>(m: Monoid<M>, s: seq<M>, x: M)
    ensures Sum(m, s + [x]) == m.plus(Sum(m, s), x)
  {
    assert (s + [x])[..|s|] == s;
  }

  lemma {:induction false} SumConcat<M(!new)>(m: Monoid<M>, s: seq<M>, t: seq<M>)
    requires Lawful(m)
    ensures Sum(m, s + t) == m.plus(Sum(m, s), Sum(m, t))
    decreases |t|
  {
    hide Lawful;
    if t == [] {
      assert s + t == s;
      Zero(m, Sum(m, s));
    } else {
      var init, last := t[..|t| - 1], t[|t| - 1];
      SumConcat(m, s, init);
      SumAppend(m, s + init, last);
      assert s + t == (s + init) + [last];
      Assoc(m, Sum(m, s), Sum(m, init), last);
    }
  }

  lemma SumRemove<M(!new)>(m: Monoid<M>, s: seq<M>, i: nat)
    requires Lawful(m) && i < |s|
    ensures Sum(m, s) == m.plus(Sum(m, Remove(s, i)), s[i])
  {
    hide Sum, Lawful;
    var a, b := s[..i], s[i + 1..];
    assert s == (a + [s[i]]) + b;
    SumConcat(m, a + [s[i]], b);
    SumAppend(m, a, s[i]);
    SumConcat(m, a, b);
    Swap(m, Sum(m, a), s[i], Sum(m, b));
  }

  /** A total does not depend on the order of the list. */
  lemma {:induction false} SumPermutes<M(!new)>(m: Monoid<M>, s: seq<M>, t: seq<M>)
    requires Lawful(m) && multiset(s) == multiset(t)
    ensures Sum(m, s) == Sum(m, t)
    decreases |s|
  {
    if s == [] {
      assert |multiset(t)| == |t|;
    } else {
      hide Sum, Lawful;
      var j := Counterpart(s, t);
      assert Remove(s, 0) == s[1..];
      SumPermutes(m, s[1..], Remove(t, j));
      SumRemove(m, s, 0);
      SumRemove(m, t, j);
    }
  }

  /** A property of zero that addition keeps holds of every total of elements that have it. */
  ghost predicate Closed<M(!new)>(m: Monoid<M>, p: M -> bool)
  {
    p(m.zero) && forall a, b :: p(a) && p(b) ==> p(m.plus(a, b))
  }

  lemma {:induction false} SumSatisfies<M(!new)>(m: Monoid<M>, p: M -> bool, s: seq<M>)
    requires Closed(m, p) && forall x :: x in s ==> p(x)
    ensures p(Sum(m, s))
    decreases |s|
  {
    if s != [] {
      SumSatisfies(m, p, s[..|s| - 1]);
    }
  }

  lemma {:induction false} SumOverSatisfies<K(!new), M(!new)>(m: Monoid<M>, p: M -> bool, f: map<K, M>, ks: set<K>)
    requires Closed(m, p) && ks <= f.Keys && forall k :: k in ks ==> p(f[k])
    ensures p(SumOver(m, f, ks))
    decreases |ks|
  {
    if ks != {} {
      var k :| k in ks && SumOver(m, f, ks) == m.plus(SumOver(m, f, ks - {k}), f[k]);
      SumOverSatisfies(m, p, f, ks - {k});
    }
  }

  ghost function Repeat<M>(m: Monoid<M>, n: nat, x: M): M
  {
    if n == 0 then m.zero else m.plus(Repeat(m, n - 1, x), x)
  }

  lemma RepeatStep<M>(m: Monoid<M>, n: nat, x: M)
    requires n > 0
    ensures Repeat(m, n, x) == m.plus(Repeat(m, n - 1, x), x)
  {
  }

  lemma {:induction false} SumCopies<M(!new)>(m: Monoid<M>, s: seq<M>, n: nat)
    requires Lawful(m)
    ensures Sum(m, Copies(s, n)) == Repeat(m, n, Sum(m, s))
    decreases n
  {
    hide Lawful;
    if n > 0 {
      hide Sum, Repeat;
      SumCopies(m, s, n - 1);
      SumConcat(m, Copies(s, n - 1), s);
      RepeatStep(m, n, Sum(m, s));
    }
  }

  // ----- over a set of map keys

  ghost function SumOver<K(!new), M>(m: Monoid<M>, f: map<K, M>, ks: set<K>): M
    requires ks <= f.Keys
  {
    if ks == {} then m.zero else var k :| k in ks; m.plus(SumOver(m, f, ks - {k}), f[k])
  }

  /** The total does not depend on which key is taken out first. */
  lemma {:induction false} SumOverRemove<K(!new), M(!new)>(m: Monoid<M>, f: map<K, M>, ks: set<K>, k: K)
    requires Lawful(m) && ks <= f.Keys && k in ks
    ensures SumOver(m, f, ks) == m.plus(SumOver(m, f, ks - {k}), f[k])
    decreases |ks|
  {
    var k0 :| k0 in ks && SumOver(m, f, ks) == m.plus(SumOver(m, f, ks - {k0}), f[k0]);
    hide SumOver, Lawful;
    if k0 != k {
      var rest := ks - {k0, k};
      assert ks - {k0} - {k} == rest && ks - {k} - {k0} == rest;
      SumOverRemove(m, f, ks - {k0}, k);
      SumOverRemove(m, f, ks - {k}, k0);
      Swap(m, SumOver(m, f, rest), f[k], f[k0]);
    }
  }

  lemma {:induction false} SumOverEqual<K(!new), M(!new)>(m: Monoid<M>, f: map<K, M>, g: map<K, M>, ks: set<K>)
    requires Lawful(m) && ks <= f.Keys && ks <= g.Keys
    requires forall k :: k in ks ==> f[k] == g[k]
    ensures SumOver(m, f, ks) == SumOver(m, g, ks)
    decreases |ks|
  {
    hide Lawful;
    if ks != {} {
      var k :| k in ks;
      SumOverRemove(m, f, ks, k);
      SumOverRemove(m, g, ks, k);
      SumOverEqual(m, f, g, ks - {k});
    }
  }

  lemma {:induction false} SumOverZero<K(!new), M(!new)>(m: Monoid<M>, f: map<K, M>, ks: set<K>)
    requires Lawful(m) && ks <= f.Keys && forall k :: k in ks ==> f[k] == m.zero
    ensures SumOver(m, f, ks) == m.zero
    decreases |ks|
  {
    hide Lawful;
    if ks != {} {
      var k :| k in ks;
      SumOverRemove(m, f, ks, k);
      SumOverZero(m, f, ks - {k});
      Zero(m, m.zero);
    }
  }

  lemma {:induction false} SumOverPlus<K(!new), M(!new)>(m: Monoid<M>, f: map<K, M>, g: map<K, M>, h: map<K, M>,
                                                         ks: set<K>)
    requires Lawful(m) && ks <= f.Keys && ks <= g.Keys && ks <= h.Keys
    requires forall k :: k in ks ==> h[k] == m.plus(f[k], g[k])
    ensures SumOver(m, h, ks) == m.plus(SumOver(m, f, ks), SumOver(m, g, ks))
    decreases |ks|
  {
    hide Lawful;
    if ks == {} {
      Zero(m, m.zero);
    } else {
      var k :| k in ks;
      SumOverRemove(m, f, ks, k);
      SumOverRemove(m, g, ks, k);
      SumOverRemove(m, h, ks, k);
      SumOverPlus(m, f, g, h, ks - {k});
      Exchange(m, SumOver(m, f, ks - {k}), SumOver(m, g, ks - {k}), f[k], g[k]);
    }
  }

  /** Adding to one entry of a map, or making a new entry, adds to the total. */
  lemma SumOverUpdate<K(!new), M(!new)>(m: Monoid<M>, f: map<K, M>, k: K, x: M)
    requires Lawful(m)
    ensures var g := f[k := m.plus(At(m, f, k), x)];
            SumOver(m, g, g.Keys) == m.plus(SumOver(m, f, f.Keys), x)
  {
    hide Lawful, SumOver;
    var g := f[k := m.plus(At(m, f, k), x)];
    SumOverRemove(m, g, g.Keys, k);
    assert g.Keys - {k} == f.Keys - {k};
    SumOverEqual(m, f, g, f.Keys - {k});
    if k in f {
      SumOverRemove(m, f, f.Keys, k);
      Assoc(m, SumOver(m, f, f.Keys - {k}), f[k], x);
    } else {
      assert f.Keys - {k} == f.Keys;
      Zero(m, x);
    }
  }

  // ----- along a list of keys

  ghost function SumAlong<K, M>(m: Monoid<M>, f: K -> M, ks: seq<K>): M
  {
    if ks == [] then m.zero else m.plus(SumAlong(m, f, ks[..|ks| - 1]), f(ks[|ks| - 1]))
  }

  lemma {:induction false} SumAlongIsSum<K, M>(m: Monoid<M>, f: K -> M, ks: seq<K>)
    ensures SumAlong(m, f, ks) == Sum(m, Map(f, ks))
    decreases |ks|
  {
    if ks != [] {
      var init := ks[..|ks| - 1];
      SumAlongIsSum(m, f, init);
      assert Map(f, ks) == Map(f, init) + [f(ks[|ks| - 1])];
      SumAppend(m, Map(f, init), f(ks[|ks| - 1]));
    }
  }

  lemma {:induction false} SumAlongEqual<K(!new), M>(m: Monoid<M>, f: K -> M, g: K -> M, ks: seq<K>)
    requires forall k :: f(k) == g(k)
    ensures SumAlong(m, f, ks) == SumAlong(m, g, ks)
    decreases |ks|
  {
    if ks != [] {
      SumAlongEqual(m, f, g, ks[..|ks| - 1]);
    }
  }

  lemma {:induction false} SumAlongPlus<K(!new), M(!new)>(m: Monoid<M>, f: K -> M, g: K -> M, h: K -> M, ks: seq<K>)
    requires Lawful(m)
    requires forall k :: h(k) == m.plus(f(k), g(k))
    ensures SumAlong(m, h, ks) == m.plus(SumAlong(m, f, ks), SumAlong(m, g, ks))
    decreases |ks|
  {
    hide Lawful;
    if ks == [] {
      Zero(m, m.zero);
    } else {
      var init, last := ks[..|ks| - 1], ks[|ks| - 1];
      SumAlongPlus(m, f, g, h, init);
      Exchange(m, SumAlong(m, f, init), SumAlong(m, g, init), f(last), g(last));
    }
  }

  lemma {:induction false} SumAlongZero<K(!new), M(!new)>(m: Monoid<M>, f: K -> M, ks: seq<K>)
    requires Lawful(m)
    requires forall k :: f(k) == m.zero
    ensures SumAlong(m, f, ks) == m.zero
    decreases |ks|
  {
    hide Lawful;
    if ks != [] {
      SumAlongZero(m, f, ks[..|ks| - 1]);
      Zero(m, m.zero);
    }
  }

  /** A function that is zero except at one key adds up to its value there, along distinct keys. */
  lemma {:induction false} SumAlongPoint<K(!new), M(!new)>(m: Monoid<M>, f: K -> M, ks: seq<K>, key: K)
    requires Lawful(m) && Distinct(ks)
    requires forall k :: k != key ==> f(k) == m.zero
    ensures SumAlong(m, f, ks) == if key in Elements(ks) then f(key) else m.zero
    decreases |ks|
  {
    hide Lawful;
    if ks != [] {
      var init, last := ks[..|ks| - 1], ks[|ks| - 1];
      ElementsSnoc(ks);
      SumAlongPoint(m, f, init, key);
      Zero(m, f(last));
      Zero(m, SumAlong(m, f, init));
    }
  }

  ghost function At<K, M>(m: Monoid<M>, f: map<K, M>, k: K): M
  {
    if k in f then f[k] else m.zero
  }

  /** Summing along a list of distinct keys, with zero for absent ones, sums over the listed keys of the map. */
  lemma {:induction false} SumAlongKeys<K(!new), M(!new)>(m: Monoid<M>, f: map<K, M>, ks: seq<K>)
    requires Lawful(m) && Distinct(ks)
    ensures SumAlong(m, (k: K) => At(m, f, k), ks) == SumOver(m, f, f.Keys * Elements(ks))
    decreases |ks|
  {
    hide Lawful, At;
    if ks == [] {
      assert f.Keys * Elements(ks) == {};
    } else {
      var init, last := ks[..|ks| - 1], ks[|ks| - 1];
      SumAlongKeys(m, f, init);
      ElementsSnoc(ks);
      hide SumOver;
      SumOverOneMore(m, f, f.Keys * Elements(init), last, f.Keys * Elements(ks));
    }
  }

  lemma SumOverOneMore<K(!new), M(!new)>(m: Monoid<M>, f: map<K, M>, before: set<K>, last: K, after: set<K>)
    requires Lawful(m) && before <= f.Keys && last !in before
    requires after == f.Keys * (before + {last})
    ensures SumOver(m, f, after) == m.plus(SumOver(m, f, before), At(m, f, last))
  {
    hide Lawful, SumOver;
    if last in f {
      assert after - {last} == before;
      SumOverRemove(m, f, after, last);
    } else {
      assert after == before;
      Zero(m, SumOver(m, f, before));
    }
  }

  /** A function that is zero outside a map and agrees with it inside adds up to the map's total along any list
      of distinct keys that covers the map. */
  lemma SumAlongCovers<K(!new), M(!new)>(m: Monoid<M>, f: K -> M, g: map<K, M>, ks: seq<K>)
    requires Lawful(m) && Distinct(ks) && g.Keys <= Elements(ks)
    requires forall k :: f(k) == At(m, g, k)
    ensures SumAlong(m, f, ks) == SumOver(m, g, g.Keys)
  {
    hide Lawful, SumAlong, SumOver, Elements, Distinct;
    SumAlongKeys(m, g, ks);
    SumAlongEqual(m, (k: K) => At(m, g, k), f, ks);
    assert g.Keys * Elements(ks) == g.Keys;
  }
}
