/** Natural powers and the two-value weighted mean inequality behind the fee-weighted potential. */
module Powers {

  /** `b` to the `e`. The base is part of the measure so that a literal exponent is never unrolled. */
  function Pow(b: nat, e: nat): nat
    decreases e, b
  {
    if e == 0 then 1 else b * Pow(b, e - 1)
  }

  lemma MulLeft(k: nat, x: int, y: int)
    requires x <= y
    ensures k * x <= k * y
  {
  }

  lemma MulStrict(x: nat, y: nat, p: nat, q: nat)
    requires x < y && p <= q && 0 < q
    ensures x * p < y * q
  {
    MulLeft(x, p, q);
    assert (y - x) * q > 0;
    assert (y - x) * q == y * q - x * q;
  }

  lemma CancelLeft(k: nat, x: int, y: int)
    requires k > 0 && k * x <= k * y
    ensures x <= y
  {
    var d := x - y;
    assert k * d == k * x - k * y;
    assert d > 0 ==> k * d > 0;
  }

  lemma Successor(q: int, d: int)
    ensures (q + 1) * d == q * d + d
  {
  }

  lemma BelowNext(q: int, r: int, d: int)
    requires d > 0 && q * d < (r + 1) * d
    ensures q <= r
  {
    if q > r {
      MulLeft(d, r + 1, q);
    }
  }

  lemma Regroup(a: nat, b: nat, c: nat)
    ensures (a * b) * c == a * (b * c)
  {
  }

  lemma RegroupPairs(a: nat, b: nat, c: nat, d: nat)
    ensures (a * b) * (c * d) == (a * c) * (b * d)
  {
    Regroup(a, b, c * d);
    Regroup(b, c, d);
    Regroup(c, b, d);
    Regroup(a, c, b * d);
    assert b * c == c * b;
  }

  lemma {:induction false} PowPositive(b: nat, e: nat)
    requires b > 0
    ensures Pow(b, e) > 0
    decreases e
  {
    if e > 0 {
      PowPositive(b, e - 1);
      assert b * Pow(b, e - 1) > 0;
    }
  }

  lemma {:induction false} PowOfZero(e: nat)
    requires e > 0
    ensures Pow(0, e) == 0
  {
  }

  lemma {:induction false} PowMonotone(x: nat, y: nat, e: nat)
    requires x <= y
    ensures Pow(x, e) <= Pow(y, e)
    decreases e
  {
    if e > 0 {
      PowMonotone(x, y, e - 1);
      MulLeft(x, Pow(x, e - 1), Pow(y, e - 1));
      MulLeft(Pow(y, e - 1), x, y);
    }
  }

  lemma {:induction false} PowOfProduct(x: nat, y: nat, e: nat)
    ensures Pow(x * y, e) == Pow(x, e) * Pow(y, e)
    decreases e
  {
    if e > 0 {
      PowOfProduct(x, y, e - 1);
      RegroupPairs(x, y, Pow(x, e - 1), Pow(y, e - 1));
    }
  }

  lemma {:induction false} PowSum(b: nat, e: nat, f: nat)
    ensures Pow(b, e + f) == Pow(b, e) * Pow(b, f)
    decreases e
  {
    if e > 0 {
      PowSum(b, e - 1, f);
      Regroup(b, Pow(b, e - 1), Pow(b, f));
    }
  }

  /** Bernoulli in its symmetric form: `y^(n+1) + n x^(n+1)` is at least `(n+1) x^n y`. */
  lemma {:induction false} Bernoulli(x: nat, y: nat, n: nat)
    ensures Pow(y, n + 1) + n * Pow(x, n + 1) >= (n + 1) * (Pow(x, n) * y)
    decreases n
  {
    if n == 0 {
      assert Pow(y, 1) == y * Pow(y, 0);
    } else {
      Bernoulli(x, y, n - 1);
      var p, q := Pow(x, n - 1), Pow(y, n);
      assert Pow(x, n) == x * p && Pow(x, n + 1) == x * (x * p) && Pow(y, n + 1) == y * q;
      // Multiply the hypothesis by y, then add n x^(n-1) (x - y)^2.
      MulLeft(y, n * (p * y), q + (n - 1) * (x * p));
      BernoulliGap(x, y, n, p, q);
    }
  }

  lemma BernoulliGap(x: nat, y: nat, n: nat, p: nat, q: nat)
    requires n >= 1
    requires y * (n * (p * y)) <= y * (q + (n - 1) * (x * p))
    ensures y * q + n * (x * (x * p)) >= (n + 1) * ((x * p) * y)
  {
    var xx, xy, yy := x * x * p, x * y * p, y * y * p;
    Square(x, y, p);
    Distribute(n, xx - 2 * xy + yy, xx, xy, yy);
    assert y * (n * (p * y)) == n * yy;
    assert x * (x * p) == xx && (x * p) * y == xy;
    GapRight(x, y, n, p, q);
    assert (n - 1) * xy == n * xy - xy && (n + 1) * xy == n * xy + xy;
  }

  lemma GapRight(x: nat, y: nat, n: nat, p: nat, q: nat)
    requires n >= 1
    ensures y * (q + (n - 1) * (x * p)) == y * q + (n - 1) * (x * y * p)
  {
    var xp := x * p;
    assert y * ((n - 1) * xp) == (n - 1) * (y * xp);
    assert y * xp == x * y * p;
  }

  lemma Square(x: nat, y: nat, p: nat)
    ensures x * x * p - 2 * (x * y * p) + y * y * p >= 0
  {
    var d := x - y;
    assert d * d >= 0;
    assert d * d == x * x - 2 * (x * y) + y * y;
    assert p * (d * d) >= 0;
    assert p * (d * d) == p * (x * x) - 2 * (p * (x * y)) + p * (y * y);
  }

  lemma Distribute(n: nat, sum: int, a: int, b: int, c: int)
    requires sum == a - 2 * b + c && sum >= 0
    ensures n * a + n * c >= 2 * (n * b)
  {
    assert n * sum >= 0;
    assert n * sum == n * a - 2 * (n * b) + n * c;
  }

  /** Adding one more value `v` to `n` values of total `total`, in integers. */
  lemma {:induction false} MeanStep(n: nat, total: nat, v: nat)
    requires n > 0
    ensures Pow(n, n) * Pow(total + v, n + 1) >= Pow(n + 1, n + 1) * (Pow(total, n) * v)
  {
    var x, y := (n + 1) * total, n * (total + v);
    var ab, cd := Pow(n + 1, n) * Pow(total, n), Pow(n, n) * Pow(total + v, n + 1);
    assert Pow(x, n + 1) == x * ab && Pow(x, n) == ab by {
      PowOfProduct(n + 1, total, n);
    }
    assert Pow(y, n + 1) == n * cd by {
      PowOfProduct(n, total + v, n + 1);
      Regroup(n, Pow(n, n), Pow(total + v, n + 1));
    }
    assert n * cd + n * (x * ab) >= (n + 1) * (ab * y) by {
      Bernoulli(x, y, n);
    }
    MeanStepCancel(n, total, v, ab, cd);
    RegroupFour(n + 1, Pow(n + 1, n), Pow(total, n), v);
  }

  lemma RegroupFour(a: nat, b: nat, c: nat, d: nat)
    ensures (a * (b * c)) * d == (a * b) * (c * d)
  {
    assert (a * (b * c)) * d == a * ((b * c) * d);
    assert (b * c) * d == b * (c * d);
  }

  lemma MeanStepCancel(n: nat, total: nat, v: nat, ab: nat, cd: nat)
    requires n > 0
    requires n * cd + n * (((n + 1) * total) * ab) >= (n + 1) * (ab * (n * (total + v)))
    ensures cd >= (n + 1) * ab * v
  {
    var g, h := (n + 1) * total * ab, (n + 1) * ab * v;
    assert (n + 1) * (ab * (n * (total + v))) == n * (g + h);
    assert n * cd + n * g == n * (cd + g);
    CancelLeft(n, g + h, cd + g);
  }

  lemma MeanOfOneValue(m: nat, x: nat)
    ensures Pow(m * x, m) >= Pow(m, m) * (Pow(x, m) * 1)
  {
    PowOfProduct(m, x, m);
  }

  lemma OneMoreShare(m: nat, x: nat, n: nat, y: nat)
    requires n > 0
    ensures m * x + (n - 1) * y + y == m * x + n * y
  {
  }

  /**
   * Weighted mean inequality for two values: `m` copies of `x` and `n` copies of `y` have
   * `(m x + n y)^(m+n) >= (m+n)^(m+n) x^m y^n`.
   */
  lemma {:induction false} WeightedMean(m: nat, n: nat, x: nat, y: nat)
    ensures Pow(m * x + n * y, m + n) >= Pow(m + n, m + n) * (Pow(x, m) * Pow(y, n))
    decreases n
  {
    if n == 0 {
      MeanOfOneValue(m, x);
      assert m * x + 0 * y == m * x && Pow(y, 0) == 1;
    } else if m + n == 1 {
      assert m == 0 && n == 1;
      assert Pow(y, 1) == y * Pow(y, 0) && Pow(1, 1) == 1 * Pow(1, 0);
      assert 0 * x + 1 * y == y;
    } else {
      var total, product := m * x + (n - 1) * y, Pow(x, m) * Pow(y, n - 1);
      WeightedMean(m, n - 1, x, y);
      WeightedMeanStep(m + n - 1, total, product, y);
      OneMoreShare(m, x, n, y);
      RegroupLast(Pow(x, m), Pow(y, n - 1), y);
    }
  }

  lemma WeightedMeanStep(k: nat, total: nat, product: nat, y: nat)
    requires k > 0 && Pow(total, k) >= Pow(k, k) * product
    ensures Pow(total + y, k + 1) >= Pow(k + 1, k + 1) * (product * y)
  {
    MeanStep(k, total, y);
    PowPositive(k, k);
    WeightedMeanChain(Pow(k, k), Pow(k + 1, k + 1), Pow(total, k), product, y, Pow(total + y, k + 1));
  }

  lemma RegroupLast(a: nat, b: nat, c: nat)
    ensures (a * b) * c == a * (c * b)
  {
  }

  lemma WeightedMeanChain(kk: nat, big: nat, t: nat, product: nat, y: nat, goal: nat)
    requires kk > 0
    requires t >= kk * product
    requires kk * goal >= big * (t * y)
    ensures goal >= big * (product * y)
  {
    MulLeft(big * y, kk * product, t);
    assert (big * y) * (kk * product) == kk * (big * (product * y));
    assert (big * y) * t == big * (t * y);
    CancelLeft(kk, big * (product * y), goal);
  }
}
