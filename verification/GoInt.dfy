/** Go's fixed-width integers: arithmetic on `int32` and `int64` wraps around silently, and `/` truncates
    toward zero. Sums are written on unbounded integers and wrapped explicitly. */
module GoInt {

  const TWO_31 := 0x8000_0000
  const TWO_32 := 0x1_0000_0000
  const TWO_63 := 0x8000_0000_0000_0000
  const TWO_64 := 0x1_0000_0000_0000_0000

  type Int32 = x: int | -TWO_31 <= x < TWO_31
  type Int64 = x: int | -TWO_63 <= x < TWO_63

  /** The `int32` that two's complement arithmetic leaves for the mathematical result `x`. */
  function Wrap32(x: int): (r: Int32)
  {
    (x + TWO_31) % TWO_32 - TWO_31
  }

  /** The `int64` that two's complement arithmetic leaves for the mathematical result `x`. */
  function Wrap64(x: int): (r: Int64)
  {
    (x + TWO_63) % TWO_64 - TWO_63
  }

  lemma Wrap32Keeps(x: int)
    requires -TWO_31 <= x < TWO_31
    ensures Wrap32(x) == x
  {
  }

  lemma Wrap32Absorbs(a: int, b: int)
    ensures Wrap32(Wrap32(a) + b) == Wrap32(a + b)
  {
  }

  lemma Wrap64Absorbs(a: int, b: int)
    ensures Wrap64(Wrap64(a) + b) == Wrap64(a + b)
  {
  }

  /** Go's `a / b` for a positive divisor. */
  function Quot(a: int, b: int): int
    requires b > 0
  {
    if a >= 0 then a / b else -((-a) / b)
  }

  lemma Scale(b: int, x: int, y: int)
    requires 0 <= b
    ensures x <= y ==> b * x <= b * y
  {
  }

  lemma FactorBelow(b: int, x: int, y: int)
    requires 0 < b && b * x < b * y + b
    ensures x <= y
  {
    Scale(b, y + 1, x);
    assert b * (y + 1) == b * y + b;
  }

  /** The defining property of division on non-negative dividends, both directions. */
  lemma DivUnique(a: int, b: int, q: int)
    requires 0 <= a && 0 < b
    ensures 0 <= a / b
    ensures a / b == q <==> b * q <= a < b * q + b
  {
    var d := a / b;
    assert b * d <= a < b * d + b;
    if b * q <= a < b * q + b {
      FactorBelow(b, q, d);
      FactorBelow(b, d, q);
    }
  }

  /** An average lies between the bounds of what is averaged, also after truncation toward zero. */
  lemma QuotBetween(a: int, b: int, lo: int, hi: int)
    requires b > 0
    requires b * lo <= a <= b * hi
    ensures lo <= Quot(a, b) <= hi
  {
    if a >= 0 {
      DivUnique(a, b, a / b);
      FactorBelow(b, lo, a / b);
      FactorBelow(b, a / b, hi);
    } else {
      var d := (-a) / b;
      DivUnique(-a, b, d);
      assert b * -d == -(b * d);
      FactorBelow(b, lo, -d);
      FactorBelow(b, -d, hi);
    }
  }

  lemma DivMonotone(a: int, a': int, b: int)
    requires b > 0 && 0 <= a <= a'
    ensures 0 <= a / b <= a' / b
  {
    DivUnique(a, b, a / b);
    DivUnique(a', b, a' / b);
    FactorBelow(b, a / b, a' / b);
  }

  lemma QuotMonotone(a: int, a': int, b: int)
    requires b > 0 && a <= a'
    ensures Quot(a, b) <= Quot(a', b)
  {
    if a >= 0 {
      DivMonotone(a, a', b);
    } else if a' < 0 {
      DivMonotone(-a', -a, b);
    } else {
      DivMonotone(0, -a, b);
      DivMonotone(0, a', b);
    }
  }

  lemma DivNested(a: int, b: int, c: int)
    requires 0 <= a && b > 0 && c > 0
    ensures b * c > 0 && 0 <= a / b
    ensures a / b / c == a / (b * c)
  {
    var d := a / b;
    var e := d / c;
    DivUnique(a, b, d);
    DivUnique(d, c, e);
    Scale(b, c * e, d);
    Scale(b, d + 1, c * e + c);
    Scale(b, 1, c);
    assert b * (d + 1) == b * d + b;
    assert b * (c * e) == (b * c) * e;
    assert b * (c * e + c) == (b * c) * e + b * c;
    DivUnique(a, b * c, e);
  }

  /** Dividing twice is dividing once by the product, rounding included, for dividends of either sign. */
  lemma QuotNested(a: int, b: int, c: int)
    requires b > 0 && c > 0
    ensures b * c > 0
    ensures Quot(Quot(a, b), c) == Quot(a, b * c)
  {
    DivNested(if a >= 0 then a else -a, b, c);
    if a < 0 {
      DivNested(0, b, c);
    }
  }

  lemma DivScale(a: int, b: int, k: int)
    requires 0 <= a && b > 0 && k > 0
    ensures k * b > 0 && k * a >= 0
    ensures k * a / (k * b) == a / b
  {
    var d := a / b;
    DivUnique(a, b, d);
    Scale(k, 1, b);
    Scale(k, 0, a);
    Scale(k, b * d, a);
    Scale(k, a + 1, b * d + b);
    assert k * (a + 1) == k * a + k;
    assert k * (b * d) == (k * b) * d;
    assert k * (b * d + b) == (k * b) * d + k * b;
    DivUnique(k * a, k * b, d);
  }

  /** A common positive factor of dividend and divisor cancels, rounding included. */
  lemma QuotScale(a: int, b: int, k: int)
    requires b > 0 && k > 0
    ensures k * b > 0
    ensures Quot(k * a, k * b) == Quot(a, b)
  {
    DivScale(if a >= 0 then a else -a, b, k);
    if a < 0 {
      assert k * -a == -(k * a);
      Scale(k, 1, -a);
    }
  }

  lemma QuotGap(a: int, b: int, n: int)
    requires n > 0 && a >= b + 2 * n
    ensures Quot(a, n) > Quot(b, n)
  {
    var q := Quot(b, n);
    var m := n * (q + 1);
    assert m <= b + 2 * n by {
      DivUnique(if b >= 0 then b else -b, n, if b >= 0 then q else -q);
      assert n * -q == -(n * q) && m == n * q + n;
    }
    QuotBetween(m, n, q + 1, q + 1);
    QuotMonotone(m, a, n);
  }

  /** Averaging a wrapped int32 or int64 total gives the average of the mathematical total exactly if the total
      fits. */
  lemma AverageExact(t: int, n: int)
    requires 0 < n < TWO_31
    ensures Quot(Wrap32(t), n) == Quot(t, n) <==> Wrap32(t) == t
    ensures Quot(Wrap64(t), n) == Quot(t, n) <==> Wrap64(t) == t
  {
    Apart(t, Wrap32(t), n);
    Apart(t, Wrap64(t), n);
  }

  lemma Apart(a: int, b: int, n: int)
    requires n > 0
    ensures a >= b + 2 * n || b >= a + 2 * n ==> Quot(a, n) != Quot(b, n)
  {
    if a >= b + 2 * n {
      QuotGap(a, b, n);
    } else if b >= a + 2 * n {
      QuotGap(b, a, n);
    }
  }

  /** Averaging a wrapped int64 total in units of 2^30, and narrowing the result to an int32, is exact exactly if the
      total fits an int64 and the average an int32. */
  lemma NarrowedExact(t: int, n: int, d: int)
    requires 0 < n < TWO_31 && d == n * 0x4000_0000
    ensures Wrap32(Quot(Wrap64(t), d)) == Quot(t, d) <==> Wrap64(t) == t && -TWO_31 <= Quot(t, d) < TWO_31
  {
    var w, q := Wrap64(t), Quot(t, d);
    if -TWO_31 <= q < TWO_31 {
      if n < 4 {
        QuotBounds(t, d);
        FewFit(t, n, d, q);
      } else {
        ManyNarrow(w, n, d);
        Apart(t, w, d);
      }
    }
  }

  lemma QuotBounds(t: int, d: int)
    requires d > 0
    ensures d * Quot(t, d) - d < t < d * Quot(t, d) + d
  {
    var q := Quot(t, d);
    DivUnique(if t >= 0 then t else -t, d, if t >= 0 then q else -q);
    assert d * -q == -(d * q);
  }

  /** For fewer than four histories a total whose average is an int32 fits an int64. */
  lemma FewFit(t: int, n: int, d: int, q: int)
    requires 0 < n < 4 && d == n * 0x4000_0000 && -TWO_31 <= q < TWO_31
    requires d * q - d < t < d * q + d
    ensures Wrap64(t) == t
  {
    Scale(d, -TWO_31, q);
    Scale(d, q, TWO_31);
  }

  /** For four histories and more the average of any int64 is an int32. */
  lemma ManyNarrow(w: int, n: int, d: int)
    requires 4 <= n && d == n * 0x4000_0000 && -TWO_63 <= w < TWO_63
    ensures -TWO_31 <= Quot(w, d) < TWO_31
  {
    QuotBounds(w, d);
    var q := Quot(w, d);
    var four := 4 * 0x4000_0000;
    if w >= 0 {
      DivMonotone(0, w, d);
      Scale(q, four, d);
      DivUnique(w, d, q);
      assert four * q <= w by {
        assert q * four <= q * d && q * d == d * q;
      }
    } else {
      DivMonotone(0, -w, d);
      Scale(-q, four, d);
      DivUnique(-w, d, -q);
      assert four * -q <= -w by {
        assert -q * four <= -q * d && -q * d == d * -q;
      }
    }
  }

  /** What wrapping means: the one number of the type that differs by a multiple of 2^32 or 2^64. */
  lemma WrapMeaning(x: int)
    ensures x - Wrap32(x) == 0x1_0000_0000 * ((x + 0x8000_0000) / 0x1_0000_0000)
    ensures x - Wrap64(x) == 0x1_0000_0000_0000_0000 * ((x + 0x8000_0000_0000_0000) / 0x1_0000_0000_0000_0000)
  {
  }

  /** What truncating division means: the remainder is smaller than the divisor and has the sign of the dividend. */
  lemma QuotMeaning(a: int, b: int)
    requires b > 0
    ensures a >= 0 ==> 0 <= a - b * Quot(a, b) < b
    ensures a <= 0 ==> -b < a - b * Quot(a, b) <= 0
  {
    QuotBounds(a, b);
    var q := Quot(a, b);
    DivUnique(if a >= 0 then a else -a, b, if a >= 0 then q else -q);
    assert b * -q == -(b * q);
  }
}
