/** Sorted key lists: the order of Go strings, the sorted enumeration of a finite set, and a sort that reaches
    it from any enumeration of the set. */
module Ordering {

  /** The order of Go's `<` on strings. */
  predicate StringLess(a: string, b: string)
  {
    b != [] && (a == [] || a[0] < b[0] || (a[0] == b[0] && StringLess(a[1..], b[1..])))
  }

  /** A string is less than another if it is a proper prefix of it, or has the smaller character where they first
      differ. */
  lemma {:induction false} StringLessMeaning(a: string, b: string)
    ensures StringLess(a, b)
            <==> exists i :: 0 <= i <= |a| && i < |b| && a[..i] == b[..i] && (i == |a| || a[i] < b[i])
  {
    if b != [] && a != [] && a[0] == b[0] {
      StringLessMeaning(a[1..], b[1..]);
      var (a', b') := (a[1..], b[1..]);
      if i :| 0 <= i <= |a'| && i < |b'| && a'[..i] == b'[..i] && (i == |a'| || a'[i] < b'[i]) {
        assert a[..i + 1] == [a[0]] + a[1..][..i] && b[..i + 1] == [b[0]] + b[1..][..i];
      }
      if i :| 0 <= i <= |a| && i < |b| && a[..i] == b[..i] && (i == |a| || a[i] < b[i]) {
        assert i > 0;
        assert a[1..][..i - 1] == a[..i][1..] && b[1..][..i - 1] == b[..i][1..];
      }
    } else if b != [] {
      assert a[..0] == b[..0];
      if i :| 0 <= i <= |a| && i < |b| && a[..i] == b[..i] && (i == |a| || a[i] < b[i]) {
        assert i > 0 ==> a[..i][0] == b[..i][0];
      }
    }
  }

  ghost predicate StrictTotalOrder<T(!new)>(less: (T, T) -> bool)
  {
    && (forall a :: !less(a, a))
    && (forall a, b :: a != b ==> less(a, b) || less(b, a))
    && (forall a, b, c :: less(a, b) && less(b, c) ==> less(a, c))
  }

  lemma {:induction false} Trichotomy(a: string, b: string)
    ensures !StringLess(a, a)
    ensures a != b ==> StringLess(a, b) || StringLess(b, a)
  {
    if a != [] {
      Trichotomy(a[1..], if b == [] then [] else b[1..]);
      if b != [] && a[0] == b[0] {
        assert a == [a[0]] + a[1..] && b == [b[0]] + b[1..];
      }
    }
  }

  lemma {:induction false} Transitive(a: string, b: string, c: string)
    requires StringLess(a, b) && StringLess(b, c)
    ensures StringLess(a, c)
  {
    if a != [] && a[0] == b[0] == c[0] {
      Transitive(a[1..], b[1..], c[1..]);
    }
  }

  lemma StringOrder()
    ensures StrictTotalOrder(StringLess)
  {
    forall a, b ensures !StringLess(a, a) && (a != b ==> StringLess(a, b) || StringLess(b, a)) {
      Trichotomy(a, b);
    }
    forall a, b, c | StringLess(a, b) && StringLess(b, c) ensures StringLess(a, c) {
      Transitive(a, b, c);
    }
  }

  ghost predicate Ascending<T>(less: (T, T) -> bool, s: seq<T>)
  {
    forall i, j :: 0 <= i < j < |s| ==> less(s[i], s[j])
  }

  /** No element of the list occurs among those before it. */
  ghost predicate Distinct<T>(s: seq<T>)
  {
    s == [] || (s[|s| - 1] !in Elements(s[..|s| - 1]) && Distinct(s[..|s| - 1]))
  }

  ghost function Elements<T>(s: seq<T>): set<T>
  {
    set x | x in s
  }

  lemma ElementsConcat<T>(a: seq<T>, b: seq<T>)
    ensures Elements(a + b) == Elements(a) + Elements(b)
  {
    forall x | x in Elements(a) + Elements(b) ensures x in a + b {
      assert x in a || x in b;
    }
  }

  lemma ElementsEmpty<T>(s: seq<T>)
    ensures s == [] <==> Elements(s) == {}
  {
    if s != [] {
      assert s[0] in Elements(s);
    }
  }

  lemma ElementsSnoc<T>(s: seq<T>)
    requires s != []
    ensures Elements(s) == Elements(s[..|s| - 1]) + {s[|s| - 1]}
  {
    ElementsConcat(s[..|s| - 1], [s[|s| - 1]]);
    assert s == s[..|s| - 1] + [s[|s| - 1]];
  }

  lemma Pick<T(!new)>(s: set<T>) returns (x: T)
    requires s != {}
    ensures x in s
  {
    x :| x in s;
  }

  /** The least element of a non-empty finite set. */
  lemma {:induction false} Least<T(!new)>(less: (T, T) -> bool, s: set<T>) returns (m: T)
    requires StrictTotalOrder(less) && s != {}
    ensures m in s && forall x :: x in s && x != m ==> less(m, x)
  {
    m :| m in s;
    if s - {m} != {} {
      var n := Least(less, s - {m});
      if less(n, m) {
        m := n;
      }
    }
  }

  /** The elements of a finite set in ascending order, each once. */
  ghost function Sorted<T(!new)>(less: (T, T) -> bool, s: set<T>): (r: seq<T>)
    requires StrictTotalOrder(less)
    ensures Ascending(less, r)
    ensures Elements(r) == s
  {
    if s == {} then []
    else
      assert exists m :: m in s && forall x :: x in s && x != m ==> less(m, x) by {
        var m := Least(less, s);
      }
      var m :| m in s && forall x :: x in s && x != m ==> less(m, x);
      var rest := Sorted(less, s - {m});
      assert forall i :: 0 <= i < |rest| ==> rest[i] in Elements(rest);
      ElementsConcat([m], rest);
      [m] + rest
  }

  /** A strictly ascending list is determined by its elements. */
  lemma {:induction false} SortedUnique<T(!new)>(less: (T, T) -> bool, a: seq<T>, b: seq<T>)
    requires StrictTotalOrder(less) && Ascending(less, a) && Ascending(less, b)
    requires Elements(a) == Elements(b)
    ensures a == b
  {
    ElementsEmpty(a);
    ElementsEmpty(b);
    if a != [] {
      assert a[0] in Elements(b) && b[0] in Elements(a);
      var i :| 0 <= i < |b| && b[i] == a[0];
      var j :| 0 <= j < |a| && a[j] == b[0];
      assert i == 0;
      TailElements(less, a);
      TailElements(less, b);
      SortedUnique(less, a[1..], b[1..]);
    }
  }

  lemma TailElements<T(!new)>(less: (T, T) -> bool, a: seq<T>)
    requires StrictTotalOrder(less) && Ascending(less, a) && a != []
    ensures Ascending(less, a[1..])
    ensures Elements(a[1..]) == Elements(a) - {a[0]}
  {
    assert a == [a[0]] + a[1..];
  }

  /** The keys of a map as a list, in whatever order the map yields them. */
  method Enumerate<T(==, !new)>(keys: set<T>) returns (r: seq<T>)
    ensures Elements(r) == keys
    ensures Distinct(r)
  {
    r := [];
    var rest := keys;
    while rest != {}
      invariant rest <= keys && Elements(r) == keys - rest
      invariant Distinct(r)
    {
      var k :| k in rest;
      ElementsConcat(r, [k]);
      assert (r + [k])[..|r|] == r;
      r := r + [k];
      rest := rest - {k};
    }
  }

  lemma InsertAt<T(!new)>(less: (T, T) -> bool, r: seq<T>, k: nat, x: T)
    requires StrictTotalOrder(less) && Ascending(less, r) && x !in r
    requires k <= |r|
    requires forall j :: 0 <= j < k ==> less(r[j], x)
    requires k < |r| ==> !less(r[k], x)
    ensures Ascending(less, r[..k] + [x] + r[k..])
    ensures Elements(r[..k] + [x] + r[k..]) == Elements(r) + {x}
  {
    assert forall j :: k <= j < |r| ==> less(x, r[k]) && (j == k || less(r[k], r[j]));
    assert r == r[..k] + r[k..];
    ElementsConcat(r[..k], r[k..]);
    ElementsConcat(r[..k], [x]);
    ElementsConcat(r[..k] + [x], r[k..]);
  }

  lemma {:induction false} DistinctPrefix<T>(s: seq<T>, i: nat)
    requires Distinct(s) && i < |s|
    ensures s[i] !in Elements(s[..i])
    decreases |s|
  {
    if i < |s| - 1 {
      assert s[..|s| - 1][..i] == s[..i];
      DistinctPrefix(s[..|s| - 1], i);
    }
  }

  lemma {:induction false} AscendingDistinct<T(!new)>(less: (T, T) -> bool, s: seq<T>)
    requires StrictTotalOrder(less) && Ascending(less, s)
    ensures Distinct(s)
    decreases |s|
  {
    if s != [] {
      AscendingDistinct(less, s[..|s| - 1]);
    }
  }

  /** The library sort applied to the keys of a map, which arrive in any order. */
  method Sort<T(==, !new)>(less: (T, T) -> bool, s: seq<T>) returns (r: seq<T>)
    requires StrictTotalOrder(less)
    requires Distinct(s)
    ensures r == Sorted(less, Elements(s))
  {
    r := [];
    for i := 0 to |s|
      invariant Ascending(less, r) && Elements(r) == Elements(s[..i])
    {
      DistinctPrefix(s, i);
      assert forall x :: x in r ==> x in Elements(r);
      var k := 0;
      while k < |r| && less(r[k], s[i])
        invariant 0 <= k <= |r|
        invariant forall j :: 0 <= j < k ==> less(r[j], s[i])
      {
        k := k + 1;
      }
      InsertAt(less, r, k, s[i]);
      r := r[..k] + [s[i]] + r[k..];
      assert s[..i + 1] == s[..i] + [s[i]];
      ElementsConcat(s[..i], [s[i]]);
    }
    assert s[..|s|] == s;
    SortedUnique(less, r, Sorted(less, Elements(s)));
  }
}
