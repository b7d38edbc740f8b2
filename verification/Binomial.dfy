/** The upper tail of the binomial distribution (internal/faultcluster),
    over exact real numbers. */
module Binomial {

  function Choose(n: nat, k: nat): nat {
    if k == 0 then 1 else if n == 0 then 0 else Choose(n - 1, k - 1) + Choose(n - 1, k)
  }

  function Pow(x: real, n: nat): real {
    if n == 0 then 1.0 else x * Pow(x, n - 1)
  }

  /** P(X = i) for X binomial with n trials and success probability p. */
  function Mass(n: nat, i: nat, p: real): real
    requires i <= n
  {
    Product(Choose(n, i) as real, Pow(p, i), Pow(1.0 - p, n - i))
  }

  function Product(a: real, b: real, c: real): real {
    a * b * c
  }

  /** All n+1 probabilities. */
  function Distribution(n: nat, p: real): seq<real> {
    seq(n + 1, i requires 0 <= i < n + 1 => Mass(n, i, p))
  }

  function SumFrom(d: seq<real>, k: nat): real
    decreases |d| - k
  {
    if k >= |d| then 0.0 else d[k] + SumFrom(d, k + 1)
  }

  /** P(X >= k). */
  function Tail(n: nat, k: nat, p: real): real {
    SumFrom(Distribution(n, p), k)
  }

  // ----- Coefficients

  lemma {:induction false} ChooseAbove(n: nat, k: nat)
    requires k > n
    ensures Choose(n, k) == 0
  {
    if n > 0 {
      ChooseAbove(n - 1, k - 1);
      ChooseAbove(n - 1, k);
    }
  }

  lemma {:induction false} ChooseAll(n: nat)
    ensures Choose(n, n) == 1
  {
    if n > 0 {
      ChooseAll(n - 1);
      ChooseAbove(n - 1, n);
    }
  }

  /** The successive-ratio law of binomial coefficients. */
  lemma {:induction false} ChooseRatio(n: nat, i: nat)
    requires 1 <= i <= n
    ensures i * Choose(n, i) == (n - i + 1) * Choose(n, i - 1)
  {
    var c := Choose(n - 1, i - 1);
    if i < n {
      ChooseRatio(n - 1, i);
    } else {
      ChooseAbove(n - 1, i);
    }
    assert i * Choose(n - 1, i) == (n - i) * c;
    assert i * Choose(n, i) == i * c + i * Choose(n - 1, i) == n * c by {
      Distribute(i, c, Choose(n - 1, i));
      Collect2(i, n - i, c);
    }
    if i == 1 {
      assert Choose(n, 0) == 1 && c == 1;
    } else {
      ChooseRatio(n - 1, i - 1);
      var d := Choose(n - 1, i - 2);
      assert (i - 1) * c == (n - i + 1) * d;
      Distribute(n - i + 1, d, c);
      Collect2(i - 1, n - i + 1, c);
    }
  }

  lemma Distribute(a: int, b: int, c: int)
    ensures a * (b + c) == a * b + a * c
  {
  }

  lemma Collect2(a: int, b: int, c: int)
    ensures a * c + b * c == (a + b) * c
  {
  }

  // ----- Probabilities

  lemma {:induction false} PowNonNegative(x: real, n: nat)
    requires x >= 0.0
    ensures Pow(x, n) >= 0.0
  {
    if n > 0 {
      PowNonNegative(x, n - 1);
    }
  }

  lemma ProductNonNegative(a: real, b: real, c: real)
    requires a >= 0.0 && b >= 0.0 && c >= 0.0
    ensures Product(a, b, c) >= 0.0
  {
    assert a * b >= 0.0;
  }

  lemma {:induction false} MassNonNegative(n: nat, i: nat, p: real)
    requires 0.0 <= p <= 1.0 && i <= n
    ensures Mass(n, i, p) >= 0.0
  {
    PowNonNegative(p, i);
    PowNonNegative(1.0 - p, n - i);
    var c, x, y := Choose(n, i) as real, Pow(p, i), Pow(1.0 - p, n - i);
    ProductNonNegative(c, x, y);
  }

  /** The average of `a` with weight p and `b` with weight 1-p. */
  function Mix(p: real, a: real, b: real): real {
    p * a + (1.0 - p) * b
  }

  /** `d'` is the distribution after one more trial. */
  ghost predicate OneMoreTrial(d: seq<real>, d': seq<real>, p: real) {
    && |d'| == |d| + 1
    && (forall i :: 0 <= i < |d| ==> d'[i + 1] == Mix(p, d[i], if i + 1 < |d| then d[i + 1] else 0.0))
    && d'[0] == Mix(p, 0.0, if |d| > 0 then d[0] else 0.0)
  }

  lemma PascalAlgebra(c: real, a: real, b: real, x: real, x': real, y: real, y': real, p: real, q: real)
    requires c == a + b && x' == p * x && y == q * y' && q == 1.0 - p
    ensures Product(c, x', y) == Mix(p, Product(a, x, y), Product(b, x', y'))
  {
  }

  lemma {:induction false} MassPascal(n: nat, i: nat, p: real)
    requires i < n
    ensures Mass(n + 1, i + 1, p) == Mix(p, Mass(n, i, p), Mass(n, i + 1, p))
  {
    var q := 1.0 - p;
    PascalAlgebra(Choose(n + 1, i + 1) as real, Choose(n, i) as real, Choose(n, i + 1) as real,
                  Pow(p, i), Pow(p, i + 1), Pow(q, n - i), Pow(q, n - i - 1), p, q);
  }

  lemma {:induction false} MassEnds(n: nat, p: real)
    ensures Mass(n, 0, p) == Pow(1.0 - p, n)
    ensures Mass(n, n, p) == Pow(p, n)
  {
    ChooseAll(n);
  }

  lemma {:induction false} MassFirst(n: nat, p: real)
    ensures Mass(n + 1, 0, p) == Mix(p, 0.0, Mass(n, 0, p))
  {
    MassEnds(n, p);
    MassEnds(n + 1, p);
    MixZero(p, Pow(1.0 - p, n));
  }

  lemma {:induction false} MassLast(n: nat, p: real)
    ensures Mass(n + 1, n + 1, p) == Mix(p, Mass(n, n, p), 0.0)
  {
    MassEnds(n, p);
    MassEnds(n + 1, p);
    MixZero(p, Pow(p, n));
  }

  lemma MixZero(p: real, x: real)
    ensures Mix(p, x, 0.0) == p * x && Mix(p, 0.0, x) == (1.0 - p) * x
  {
  }

  /** The probabilities of n+1 trials from those of n. */
  lemma {:induction false} DistributionStep(n: nat, p: real)
    ensures OneMoreTrial(Distribution(n, p), Distribution(n + 1, p), p)
  {
    var d, d' := Distribution(n, p), Distribution(n + 1, p);
    MassFirst(n, p);
    forall i | 0 <= i < |d| ensures d'[i + 1] == Mix(p, d[i], if i + 1 < |d| then d[i + 1] else 0.0) {
      if i < n {
        MassPascal(n, i, p);
      } else {
        MassLast(n, p);
      }
    }
  }

  lemma MixAdds(p: real, a: real, b: real, a': real, b': real)
    ensures Mix(p, a, b) + Mix(p, a', b') == Mix(p, a + a', b + b')
  {
  }

  lemma {:induction false} SumRecurrence(d: seq<real>, d': seq<real>, p: real, k: nat)
    requires OneMoreTrial(d, d', p)
    ensures SumFrom(d', k + 1) == Mix(p, SumFrom(d, k), SumFrom(d, k + 1))
    decreases |d| - k
  {
    if k < |d| {
      SumRecurrence(d, d', p, k + 1);
      var next := if k + 1 < |d| then d[k + 1] else 0.0;
      assert SumFrom(d, k + 1) == next + SumFrom(d, k + 2);
      MixAdds(p, d[k], next, SumFrom(d, k + 1), SumFrom(d, k + 2));
    } else {
      MixZero(p, 0.0);
    }
  }

  /** T(n+1, k+1) = p T(n, k) + (1-p) T(n, k+1). */
  lemma {:induction false} TailRecurrence(n: nat, k: nat, p: real)
    ensures Tail(n + 1, k + 1, p) == Mix(p, Tail(n, k, p), Tail(n, k + 1, p))
  {
    DistributionStep(n, p);
    SumRecurrence(Distribution(n, p), Distribution(n + 1, p), p, k);
  }

  lemma MixSame(p: real, x: real)
    ensures Mix(p, x, x) == x
  {
  }

  lemma {:induction false} SumStaysOne(d: seq<real>, d': seq<real>, p: real)
    requires OneMoreTrial(d, d', p) && |d| > 0 && SumFrom(d, 0) == 1.0
    ensures SumFrom(d', 0) == 1.0
  {
    SumRecurrence(d, d', p, 0);
    MixAdds(p, 0.0, d[0], SumFrom(d, 0), SumFrom(d, 1));
    MixSame(p, 1.0);
  }

  /** The binomial theorem: the probabilities add up to one. */
  lemma {:induction false} TailIsOne(n: nat, p: real)
    ensures Tail(n, 0, p) == 1.0
  {
    if n == 0 {
      assert Distribution(0, p) == [1.0];
      assert SumFrom([1.0], 0) == 1.0 + SumFrom([1.0], 1);
    } else {
      TailIsOne(n - 1, p);
      DistributionStep(n - 1, p);
      SumStaysOne(Distribution(n - 1, p), Distribution(n, p), p);
    }
  }

  lemma {:induction false} SumNonIncreasing(d: seq<real>, j: nat, k: nat)
    requires j <= k && forall i :: 0 <= i < |d| ==> d[i] >= 0.0
    ensures SumFrom(d, j) >= SumFrom(d, k) >= 0.0
    decreases |d| + k - j, |d| - k
  {
    if k < |d| {
      SumNonIncreasing(d, k + 1, k + 1);
    }
    if j < k {
      SumNonIncreasing(d, j + 1, k);
    }
  }

  lemma {:induction false} TailNonIncreasing(n: nat, j: nat, k: nat, p: real)
    requires 0.0 <= p <= 1.0 && j <= k
    ensures Tail(n, j, p) >= Tail(n, k, p) >= 0.0
  {
    forall i | 0 <= i < n + 1 ensures Distribution(n, p)[i] >= 0.0 {
      MassNonNegative(n, i, p);
    }
    SumNonIncreasing(Distribution(n, p), j, k);
  }

  /** A tail is a probability. */
  lemma {:induction false} TailIsProbability(n: nat, k: nat, p: real)
    requires 0.0 <= p <= 1.0
    ensures 0.0 <= Tail(n, k, p) <= 1.0
  {
    TailIsOne(n, p);
    TailNonIncreasing(n, 0, k, p);
  }

  /** All trials succeed with probability p^n. */
  lemma {:induction false} TailOfAll(n: nat, p: real)
    ensures Tail(n, n, p) == Pow(p, n)
  {
    ChooseAll(n);
    var d := Distribution(n, p);
    assert SumFrom(d, n + 1) == 0.0;
    assert d[n] == Mass(n, n, p) == 1.0 * Pow(p, n) * 1.0;
  }

  lemma {:induction false} SumOfZeros(d: seq<real>, k: nat)
    requires forall i :: k <= i < |d| ==> d[i] == 0.0
    ensures SumFrom(d, k) == 0.0
    decreases |d| - k
  {
    if k < |d| {
      SumOfZeros(d, k + 1);
    }
  }

  lemma {:induction false} PowZero(n: nat)
    ensures Pow(0.0, n + 1) == 0.0
  {
  }

  lemma {:induction false} TailImpossible(n: nat, k: nat)
    requires k >= 1
    ensures Tail(n, k, 0.0) == 0.0
  {
    var d := Distribution(n, 0.0);
    forall i | k <= i < |d| ensures d[i] == 0.0 {
      PowZero(i - 1);
      ZeroProduct(Choose(n, i) as real, Pow(1.0, n - i));
    }
    SumOfZeros(d, k);
  }

  lemma ZeroProduct(a: real, b: real)
    ensures Product(a, 0.0, b) == 0.0 && Product(a, b, 0.0) == 0.0
  {
  }

  lemma {:induction false} TailCertain(n: nat, k: nat)
    requires k <= n
    ensures Tail(n, k, 1.0) == 1.0
    decreases n - k
  {
    if k == n {
      TailOfAll(n, 1.0);
      PowOne(n);
    } else {
      TailCertain(n, k + 1);
      PowZero(n - k - 1);
      ZeroProduct(Choose(n, k) as real, Pow(1.0, k));
      assert Distribution(n, 1.0)[k] == 0.0;
    }
  }

  lemma {:induction false} PowOne(n: nat)
    ensures Pow(1.0, n) == 1.0
  {
    if n > 0 {
      PowOne(n - 1);
    }
  }

  // ----- The loop

  /** The factor from one term to the next. */
  function Ratio(n: nat, i: nat, p: real): real
    requires 1 <= i <= n && 0.0 < p < 1.0
  {
    (n - i + 1) as real / i as real * p / (1.0 - p)
  }

  function Scaled(term: real, factor: real): real {
    term * factor
  }

  lemma {:induction false} MassRatio(n: nat, i: nat, p: real)
    requires 1 <= i <= n && 0.0 < p < 1.0
    ensures Mass(n, i, p) == Scaled(Mass(n, i - 1, p), Ratio(n, i, p))
  {
    var c, d, r, s, v := Factors(n, i, p);
    var x, x', y, y', q := Powers(n, i, p);
    RatioAlgebra(c, d, r, s, p, q, x, x', y, y', v);
  }

  lemma {:induction false} Factors(n: nat, i: nat, p: real) returns (c: real, d: real, r: real, s: real, v: real)
    requires 1 <= i <= n && 0.0 < p < 1.0
    ensures c == Choose(n, i) as real && d == Choose(n, i - 1) as real && v == Ratio(n, i, p)
    ensures s > 0.0 && s * c == r * d && v * (1.0 - p) * s == r * p
  {
    RealRatio(n, i);
    c, d := Choose(n, i) as real, Choose(n, i - 1) as real;
    r, s := (n - i + 1) as real, i as real;
    v := Ratio(n, i, p);
    Undivide(r, s, p, 1.0 - p, v);
  }

  lemma Undivide(r: real, s: real, p: real, q: real, v: real)
    requires s > 0.0 && q > 0.0 && v == r / s * p / q
    ensures v * q * s == r * p
  {
    var u := r / s;
    assert v * q == u * p;
    assert u * s == r;
    assert (u * p) * s == (u * s) * p;
  }

  lemma {:induction false} Powers(n: nat, i: nat, p: real) returns (x: real, x': real, y: real, y': real, q: real)
    requires 1 <= i <= n
    ensures x == Pow(p, i - 1) && x' == Pow(p, i) && y == Pow(1.0 - p, n - i) && y' == Pow(1.0 - p, n - i + 1)
    ensures x' == p * x && y' == q * y && q == 1.0 - p
  {
    q := 1.0 - p;
    x, x' := Pow(p, i - 1), Pow(p, i);
    y, y' := Pow(1.0 - p, n - i), Pow(1.0 - p, n - i + 1);
  }

  lemma {:induction false} RealRatio(n: nat, i: nat)
    requires 1 <= i <= n
    ensures i as real * Choose(n, i) as real == (n - i + 1) as real * Choose(n, i - 1) as real
  {
    ChooseRatio(n, i);
    CastProduct(i, Choose(n, i));
    CastProduct(n - i + 1, Choose(n, i - 1));
  }

  lemma {:induction false} CastProduct(a: nat, b: nat)
    ensures (a * b) as real == a as real * b as real
  {
    if a > 0 {
      CastProduct(a - 1, b);
      assert a * b == (a - 1) * b + b;
      assert a as real * b as real == (a - 1) as real * b as real + b as real;
    }
  }

  lemma {:induction false} RatioAlgebra(c: real, d: real, r: real, s: real, p: real, q: real,
                                        x: real, x': real, y: real, y': real, v: real)
    requires s > 0.0 && s * c == r * d && v * q * s == r * p && x' == p * x && y' == q * y
    ensures Product(c, x', y) == Scaled(Product(d, x, y'), v)
  {
    var z := x * y;
    calc {
      s * (c * x' * y);
      (s * c) * (p * z);
      (r * d) * (p * z);
      (r * p) * (d * z);
      (v * q * s) * (d * z);
      s * (d * x * y' * v);
    }
    Cancel(s, c * x' * y, d * x * y' * v, s * (c * x' * y));
  }

  lemma Cancel(s: real, a: real, b: real, t: real)
    requires s > 0.0 && s * a == t && s * b == t
    ensures a == b
  {
    assert s * (a - b) == 0.0;
  }

  /** The value the loop computes, for any arguments. */
  function UpperTail(n: int, k: int, p: real): real {
    if k <= 0 then 1.0
    else if n <= 0 || k > n then 0.0
    else if p <= 0.0 then 0.0
    else if p >= 1.0 then 1.0
    else Tail(n, k, p)
  }

  /** For every probability p the result is the exact upper tail, a number
      between 0 and 1; the clamp at 1 never changes it. */
  method UpperTailPValue(n: int, k: int, p: real) returns (r: real)
    ensures r == UpperTail(n, k, p)
    ensures 0.0 <= r <= 1.0
    ensures n >= 0 && 0.0 <= p <= 1.0 ==> r == Tail(n, if k < 0 then 0 else k, p)
  {
    UpperTailIsTail(n, k, p);
    if k <= 0 {
      return 1.0;
    }
    if n <= 0 || k > n {
      return 0.0;
    }
    if p <= 0.0 {
      return 0.0;
    }
    if p >= 1.0 {
      return 1.0;
    }
    var q := 1.0 - p;
    var term := Pow(q, n);
    var sum := 0.0;
    for i := 0 to n + 1
      invariant i > 0 ==> term == Mass(n, i - 1, p)
      invariant i == 0 ==> term == Mass(n, 0, p)
      invariant sum == Tail(n, k, p) - Tail(n, if i < k then k else i, p)
    {
      if i > 0 {
        MassRatio(n, i, p);
        term := Scaled(term, Ratio(n, i, p));
      }
      if i >= k {
        sum := sum + term;
      }
    }
    if sum > 1.0 {
      sum := 1.0;
    }
    return sum;
  }

  lemma {:induction false} UpperTailIsTail(n: int, k: int, p: real)
    ensures 0.0 <= UpperTail(n, k, p) <= 1.0
    ensures n >= 0 && 0.0 <= p <= 1.0 ==> UpperTail(n, k, p) == Tail(n, if k < 0 then 0 else k, p)
  {
    if n >= 0 && 0.0 <= p <= 1.0 {
      if k <= 0 {
        TailIsOne(n, p);
      } else if k <= n {
        TailIsProbability(n, k, p);
        TailImpossible(n, k);
        TailCertain(n, k);
      }
    }
  }
}
