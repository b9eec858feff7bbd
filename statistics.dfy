/** Population statistics over a window of readings, in exact real arithmetic.
    The standard deviation is the square root of `Variance`; the model compares the variance
    against the squared threshold instead of taking the root. */
module Statistics {

  /** Sum of the window, accumulated from the first slot to the last. */
  function Sum(s: seq<real>): real
  {
    if |s| == 0 then 0.0 else Sum(s[..|s| - 1]) + s[|s| - 1]
  }

  /** Arithmetic mean over all slots. */
  function Mean(s: seq<real>): real
    requires |s| > 0
  {
    Sum(s) / |s| as real
  }

  /** The square `pow(x, 2)`. */
  function Sq(x: real): (r: real)
    ensures r >= 0.0
  {
    x * x
  }

  /** Sum of squared deviations of every slot from `m`. */
  function SqDev(s: seq<real>, m: real): (r: real)
    ensures r >= 0.0
  {
    if |s| == 0 then 0.0 else SqDev(s[..|s| - 1], m) + Sq(s[|s| - 1] - m)
  }

  /** Population variance: squared deviations from the mean, divided by the number of slots
      (no Bessel correction). */
  function Variance(s: seq<real>): (v: real)
    requires |s| > 0
    ensures v >= 0.0
  {
    SqDev(s, Mean(s)) / |s| as real
  }

  function Shift(s: seq<real>, c: real): seq<real>
  {
    seq(|s|, i requires 0 <= i < |s| => s[i] + c)
  }

  function Scale(s: seq<real>, k: real): seq<real>
  {
    seq(|s|, i requires 0 <= i < |s| => k * s[i])
  }

  function Constant(n: nat, v: real): seq<real>
  {
    seq(n, i => v)
  }

  lemma {:induction false} SumShift(s: seq<real>, c: real)
    ensures Sum(Shift(s, c)) == Sum(s) + |s| as real * c
  {
    if |s| > 0 {
      assert Shift(s, c)[..|s| - 1] == Shift(s[..|s| - 1], c);
      SumShift(s[..|s| - 1], c);
    }
  }

  lemma {:induction false} SqDevShift(s: seq<real>, m: real, c: real)
    ensures SqDev(Shift(s, c), m + c) == SqDev(s, m)
  {
    if |s| > 0 {
      assert Shift(s, c)[..|s| - 1] == Shift(s[..|s| - 1], c);
      SqDevShift(s[..|s| - 1], m, c);
    }
  }

  /** Adding a constant to every slot leaves the variance unchanged. */
  lemma VarianceShift(s: seq<real>, c: real)
    requires |s| > 0
    ensures Variance(Shift(s, c)) == Variance(s)
  {
    var n := |s| as real;
    SumShift(s, c);
    assert Mean(Shift(s, c)) == Mean(s) + c by {
      assert (Sum(s) + n * c) / n == Sum(s) / n + c;
    }
    SqDevShift(s, Mean(s), c);
  }

  lemma ScaleFront(s: seq<real>, k: real)
    requires |s| > 0
    ensures Scale(s, k)[..|s| - 1] == Scale(s[..|s| - 1], k)
  {
    forall i | 0 <= i < |s| - 1 ensures Scale(s, k)[i] == Scale(s[..|s| - 1], k)[i] {
      assert s[..|s| - 1][i] == s[i];
    }
  }

  lemma {:induction false} SumScale(s: seq<real>, k: real)
    ensures Sum(Scale(s, k)) == k * Sum(s)
  {
    if |s| > 0 {
      ScaleFront(s, k);
      SumScale(s[..|s| - 1], k);
      assert k * Sum(s[..|s| - 1]) + k * s[|s| - 1] == k * (Sum(s[..|s| - 1]) + s[|s| - 1]);
    }
  }

  lemma {:induction false} SqDevScale(s: seq<real>, m: real, k: real)
    ensures SqDev(Scale(s, k), k * m) == Sq(k) * SqDev(s, m)
  {
    if |s| > 0 {
      var x := s[|s| - 1];
      ScaleFront(s, k);
      SqDevScale(s[..|s| - 1], m, k);
      SqScale(k, x - m);
      assert k * x - k * m == k * (x - m);
      Distribute(Sq(k), SqDev(s[..|s| - 1], m), Sq(x - m));
    }
  }

  /** The square of a product is the product of the squares. */
  lemma SqScale(k: real, d: real)
    ensures Sq(k * d) == Sq(k) * Sq(d)
  {
    assert (k * d) * (k * d) == (k * k) * (d * d);
  }

  lemma Distribute(c: real, a: real, b: real)
    ensures c * a + c * b == c * (a + b)
  {
  }

  /** Multiplying every slot by `k` multiplies the mean by `k`. */
  lemma MeanScale(s: seq<real>, k: real)
    requires |s| > 0
    ensures Mean(Scale(s, k)) == k * Mean(s)
  {
    SumScale(s, k);
    ScaledQuotient(k, Sum(s), Sum(Scale(s, k)), |s| as real);
  }

  /** Multiplying every slot by `k` multiplies the variance by `k * k`
      (so the standard deviation by `|k|`). */
  lemma VarianceScale(s: seq<real>, k: real)
    requires |s| > 0
    ensures Variance(Scale(s, k)) == Sq(k) * Variance(s)
  {
    var m, t := Mean(s), Scale(s, k);
    MeanScale(s, k);
    VarianceAt(s, m);
    VarianceAt(t, k * m);
    SqDevScale(s, m, k);
    QuotientScaled(Sq(k), SqDev(s, m), SqDev(t, k * m), |s| as real, Variance(s), Variance(t));
  }

  lemma {:induction false} SumConstant(n: nat, v: real)
    ensures Sum(Constant(n, v)) == n as real * v
  {
    if n > 0 {
      assert Constant(n, v)[..n - 1] == Constant(n - 1, v);
      SumConstant(n - 1, v);
    }
  }

  lemma {:induction false} SqDevConstant(n: nat, v: real)
    ensures SqDev(Constant(n, v), v) == 0.0
  {
    if n > 0 {
      assert Constant(n, v)[..n - 1] == Constant(n - 1, v);
      SqDevConstant(n - 1, v);
    }
  }

  /** A window whose slots all hold the same value has variance zero. */
  lemma VarianceConstant(n: nat, v: real)
    requires n > 0
    ensures Variance(Constant(n, v)) == 0.0
  {
    SumConstant(n, v);
    assert Mean(Constant(n, v)) == v;
    SqDevConstant(n, v);
  }

  /** Every slot contributes its own squared deviation to the total. */
  lemma {:induction false} SqDevAtLeastOne(s: seq<real>, m: real, i: nat)
    requires i < |s|
    ensures SqDev(s, m) >= Sq(s[i] - m)
  {
    if i < |s| - 1 {
      assert s[..|s| - 1][i] == s[i];
      SqDevAtLeastOne(s[..|s| - 1], m, i);
    }
  }

  /** Two distinct slots both contribute their squared deviations to the total. */
  lemma {:induction false} SqDevAtLeastTwo(s: seq<real>, m: real, i: nat, j: nat)
    requires i < j < |s|
    ensures SqDev(s, m) >= Sq(s[i] - m) + Sq(s[j] - m)
  {
    var front := s[..|s| - 1];
    assert front[i] == s[i];
    if j == |s| - 1 {
      SqDevAtLeastOne(front, m, i);
    } else {
      assert front[j] == s[j];
      SqDevAtLeastTwo(front, m, i, j);
    }
  }

  /** Two slots that differ by `d` force the variance up to at least `d * d / (2 * |s|)`. */
  lemma SpreadVariance(s: seq<real>, i: nat, j: nat)
    requires i < |s| && j < |s| && i != j
    ensures Variance(s) >= Sq(s[i] - s[j]) / (2 * |s|) as real
  {
    var m := Mean(s);
    var n := |s| as real;
    if i < j { SqDevAtLeastTwo(s, m, i, j); } else { SqDevAtLeastTwo(s, m, j, i); }
    PairBound(s[i] - m, s[j] - m);
    assert s[i] - s[j] == (s[i] - m) - (s[j] - m);
    var lo := Sq(s[i] - s[j]) / 2.0;
    assert SqDev(s, m) >= lo;
    DivideMonotone(lo, SqDev(s, m), n);
    assert lo / n == Sq(s[i] - s[j]) / (2 * |s|) as real;
  }

  /** Two squared deviations together bound half the square of their difference. */
  lemma PairBound(x: real, y: real)
    ensures Sq(x) + Sq(y) >= Sq(x - y) / 2.0
  {
    assert 2.0 * (Sq(x) + Sq(y)) - Sq(x - y) == Sq(x + y);
  }

  /** The variance is the sum of squared deviations from the mean `m`, over the slot count. */
  lemma VarianceAt(s: seq<real>, m: real)
    requires |s| > 0 && m == Mean(s)
    ensures Variance(s) == SqDev(s, m) / |s| as real
  {
  }

  /** Quotients by the same `n` keep a constant factor between them. */
  lemma QuotientScaled(c: real, a: real, b: real, n: real, qa: real, qb: real)
    requires n > 0.0 && b == c * a && qa == a / n && qb == b / n
    ensures qb == c * qa
  {
    ScaledQuotient(c, a, b, n);
  }

  /** If `b` is `c` times `a`, so is its quotient by `n`. */
  lemma ScaledQuotient(c: real, a: real, b: real, n: real)
    requires n > 0.0 && b == c * a
    ensures b / n == c * (a / n)
  {
    var q := a / n;
    assert a == q * n;
    assert b == (c * q) * n;
  }

  lemma DivideMonotone(a: real, b: real, n: real)
    requires n > 0.0 && a <= b
    ensures a / n <= b / n
  {
    var qa, qb := a / n, b / n;
    assert a == qa * n && b == qb * n;
  }
}
