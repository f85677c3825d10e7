/** Sequences up to order: what a list whose order is unspecified still determines. */
module Seqs {

  ghost function Map<T, U>(f: T -> U, s: seq<T>): (r: seq<U>)
  {
    seq(|s|, i requires 0 <= i < |s| => f(s[i]))
  }

  lemma MapAppend<T, U>(f: T -> U, s: seq<T>, x: T)
    ensures Map(f, s + [x]) == Map(f, s) + [f(x)]
  {
  }

  lemma MapConcat<T, U>(f: T -> U, s: seq<T>, t: seq<T>)
    ensures Map(f, s + t) == Map(f, s) + Map(f, t)
  {
  }

  function Filter<T(!new)>(p: T -> bool, s: seq<T>): (r: seq<T>)
    ensures forall x :: x in r <==> x in s && p(x)
  {
    if s == [] then []
    else
      var init := Filter(p, s[..|s| - 1]);
      var last := s[|s| - 1];
      assert s == s[..|s| - 1] + [last];
      if p(last) then init + [last] else init
  }

  ghost function Remove<T>(s: seq<T>, i: nat): seq<T>
    requires i < |s|
  {
    s[..i] + s[i + 1..]
  }

  lemma Extensional<T>(a: multiset<T>, b: multiset<T>)
    requires forall x :: a[x] == b[x]
    ensures a == b
  {
  }

  lemma MultisetRemove<T>(s: seq<T>, i: nat)
    requires i < |s|
    ensures multiset(s) == multiset(Remove(s, i)) + multiset{s[i]}
    ensures multiset(Remove(s, i)) == multiset(s) - multiset{s[i]}
  {
    assert s == s[..i] + [s[i]] + s[i + 1..];
  }

  /** The first element of a sequence has a counterpart in every permutation of it. */
  lemma Counterpart<T>(s: seq<T>, t: seq<T>) returns (j: nat)
    requires s != [] && multiset(s) == multiset(t)
    ensures j < |t| && t[j] == s[0]
    ensures multiset(Remove(t, j)) == multiset(s[1..])
  {
    MultisetRemove(s, 0);
    assert Remove(s, 0) == s[1..];
    assert s[0] in multiset(t);
    j :| j < |t| && t[j] == s[0];
    MultisetRemove(t, j);
  }

  lemma {:induction false} MapPermutes<T, U>(f: T -> U, s: seq<T>, t: seq<T>)
    requires multiset(s) == multiset(t)
    ensures multiset(Map(f, s)) == multiset(Map(f, t))
    decreases |s|
  {
    if s == [] {
      assert |multiset(t)| == |t|;
      assert Map(f, s) == Map(f, t);
    } else {
      var j := Counterpart(s, t);
      MapPermutes(f, s[1..], Remove(t, j));
      assert Map(f, s) == [f(s[0])] + Map(f, s[1..]);
      assert Map(f, Remove(t, j)) == Remove(Map(f, t), j);
      MultisetRemove(Map(f, t), j);
    }
  }

  lemma {:induction false} FilterCounts<T(!new)>(p: T -> bool, s: seq<T>, x: T)
    ensures multiset(Filter(p, s))[x] == if p(x) then multiset(s)[x] else 0
  {
    if s != [] {
      FilterCounts(p, s[..|s| - 1], x);
      assert s == s[..|s| - 1] + [s[|s| - 1]];
    }
  }

  lemma FilterPermutes<T(!new)>(p: T -> bool, s: seq<T>, t: seq<T>)
    requires multiset(s) == multiset(t)
    ensures multiset(Filter(p, s)) == multiset(Filter(p, t))
  {
    forall x ensures multiset(Filter(p, s))[x] == multiset(Filter(p, t))[x] {
      FilterCounts(p, s, x);
      FilterCounts(p, t, x);
    }
  }

  lemma {:induction false} FilterNone<T(!new)>(p: T -> bool, s: seq<T>)
    requires forall x :: x in s ==> !p(x)
    ensures Filter(p, s) == []
  {
    if s != [] {
      FilterNone(p, s[..|s| - 1]);
    }
  }

  /** A filter over a disjoint union of two conditions splits, as a multiset. */
  lemma FilterSplits<T(!new)>(p: T -> bool, q: T -> bool, both: T -> bool, s: seq<T>)
    requires forall x :: both(x) <==> p(x) || q(x)
    requires forall x :: !(p(x) && q(x))
    ensures multiset(Filter(both, s)) == multiset(Filter(p, s)) + multiset(Filter(q, s))
  {
    forall x ensures multiset(Filter(both, s))[x] == (multiset(Filter(p, s)) + multiset(Filter(q, s)))[x] {
      FilterCounts(both, s, x);
      FilterCounts(p, s, x);
      FilterCounts(q, s, x);
    }
  }

  /** If `g` depends only on what `f` shows, lists that agree up to order under `f` agree up to order under `g`. */
  lemma {:induction false} MapFactors<T, U, V>(f: T -> U, g: T -> V, s: seq<T>, t: seq<T>)
    requires multiset(Map(f, s)) == multiset(Map(f, t))
    requires forall x, y :: x in s && y in t && f(x) == f(y) ==> g(x) == g(y)
    ensures multiset(Map(g, s)) == multiset(Map(g, t))
    decreases |s|
  {
    if s == [] {
      assert |multiset(Map(f, t))| == |t|;
      assert Map(g, s) == Map(g, t);
    } else {
      var j := Counterpart(Map(f, s), Map(f, t));
      assert Map(f, s[1..]) == Map(f, s)[1..];
      assert Map(f, Remove(t, j)) == Remove(Map(f, t), j);
      assert forall x :: x in Remove(t, j) ==> x in t;
      MapFactors(f, g, s[1..], Remove(t, j));
      assert Map(g, s) == [g(s[0])] + Map(g, s[1..]);
      assert Map(g, Remove(t, j)) == Remove(Map(g, t), j);
      MultisetRemove(Map(g, t), j);
    }
  }

  /** A list repeated `n` times. */
  ghost function Copies<T>(s: seq<T>, n: nat): seq<T>
  {
    if n == 0 then [] else Copies(s, n - 1) + s
  }

  lemma {:induction false} CopiesElements<T>(s: seq<T>, n: nat)
    ensures forall x :: x in Copies(s, n) ==> x in s
    decreases n
  {
    if n > 0 {
      CopiesElements(s, n - 1);
    }
  }

  lemma {:induction false} FilterConcat<T(!new)>(p: T -> bool, s: seq<T>, t: seq<T>)
    ensures Filter(p, s + t) == Filter(p, s) + Filter(p, t)
    decreases |t|
  {
    if t == [] {
      assert s + t == s;
    } else {
      var init := t[..|t| - 1];
      assert (s + t)[..|s + t| - 1] == s + init;
      FilterConcat(p, s, init);
    }
  }

  lemma {:induction false} FilterCopies<T(!new)>(p: T -> bool, s: seq<T>, n: nat)
    ensures Filter(p, Copies(s, n)) == Copies(Filter(p, s), n)
    decreases n
  {
    if n > 0 {
      FilterCopies(p, s, n - 1);
      FilterConcat(p, Copies(s, n - 1), s);
    }
  }

  /** The sum of an amount over a list. */
  ghost function SumBy<T>(f: T -> int, s: seq<T>): int
  {
    if s == [] then 0 else SumBy(f, s[..|s| - 1]) + f(s[|s| - 1])
  }

  ghost function SumByReal<T>(f: T -> real, s: seq<T>): real
  {
    if s == [] then 0.0 else SumByReal(f, s[..|s| - 1]) + f(s[|s| - 1])
  }

  /** These two clauses determine a sum. */
  lemma {:induction false} SumByMeaning<T>(f: T -> int, s: seq<T>, t: seq<T>, x: T)
    ensures SumBy(f, [x]) == f(x)
    ensures SumBy(f, s + t) == SumBy(f, s) + SumBy(f, t)
    decreases |t|
  {
    assert [x][..0] == [];
    if t == [] {
      assert s + t == s;
    } else {
      assert (s + t)[..|s + t| - 1] == s + t[..|t| - 1];
      SumByMeaning(f, s, t[..|t| - 1], x);
    }
  }

  lemma {:induction false} SumByRealMeaning<T>(f: T -> real, s: seq<T>, t: seq<T>, x: T)
    ensures SumByReal(f, [x]) == f(x)
    ensures SumByReal(f, s + t) == SumByReal(f, s) + SumByReal(f, t)
    decreases |t|
  {
    assert [x][..0] == [];
    if t == [] {
      assert s + t == s;
    } else {
      assert (s + t)[..|s + t| - 1] == s + t[..|t| - 1];
      SumByRealMeaning(f, s, t[..|t| - 1], x);
    }
  }
}
