/** Samples grouped into buckets of a fixed width per series: sums, counts
    and means. Timestamps are milliseconds; values are exact. */
module Buckets {
  import opened Common
  import opened SeriesKey

  datatype Sample = Sample(labels: Labels, ts: int, value: real)
  datatype Bucket = Bucket(series: string, start: int)

  /** `Truncate(width)`: down to a multiple of the width. */
  function Start(width: nat, ts: int): int
    requires width > 0
  {
    ts - ts % width
  }

  ghost function BucketOf(width: nat, s: Sample): Bucket
    requires width > 0
  {
    Bucket(KeyOf(s.labels), Start(width, s.ts))
  }

  lemma {:induction false} MultiplesApart(q: int, q': int, width: nat)
    requires q < q'
    ensures q * width + width <= q' * width
  {
    assert (q' - q) * width >= width by {
      assert q' - q >= 1;
      if width > 0 {
        Grows(q' - q, width);
      }
    }
    assert (q' - q) * width == q' * width - q * width;
  }

  lemma Grows(n: int, width: nat)
    requires n >= 1
    ensures n * width >= width
  {
  }

  /** A sample lies in exactly one of the buckets that start at multiples of
      the width. */
  lemma {:induction false} OneBucket(width: nat, ts: int, q: int)
    requires width > 0
    ensures Start(width, ts) == (ts / width) * width
    ensures q * width <= ts < q * width + width <==> q * width == Start(width, ts)
  {
    var p := ts / width;
    assert ts == p * width + ts % width;
    if q < p {
      MultiplesApart(q, p, width);
    } else if p < q {
      MultiplesApart(p, q, width);
    }
  }

  // ----- Tallies

  ghost function Sum(width: nat, samples: seq<Sample>, b: Bucket): real
    requires width > 0
  {
    if samples == [] then 0.0
    else
      var s := samples[|samples| - 1];
      Sum(width, samples[..|samples| - 1], b) + if BucketOf(width, s) == b then s.value else 0.0
  }

  ghost function Count(width: nat, samples: seq<Sample>, b: Bucket): nat
    requires width > 0
  {
    if samples == [] then 0
    else Count(width, samples[..|samples| - 1], b) + if BucketOf(width, samples[|samples| - 1]) == b then 1 else 0
  }

  /** The value emitted for a bucket. */
  ghost function Mean(width: nat, samples: seq<Sample>, b: Bucket): real
    requires width > 0 && Count(width, samples, b) > 0
  {
    Sum(width, samples, b) / Count(width, samples, b) as real
  }

  lemma {:induction false} TallyAppend(width: nat, samples: seq<Sample>, s: Sample, b: Bucket)
    requires width > 0
    ensures Sum(width, samples + [s], b) == Sum(width, samples, b) + if BucketOf(width, s) == b then s.value else 0.0
    ensures Count(width, samples + [s], b) == Count(width, samples, b) + if BucketOf(width, s) == b then 1 else 0
  {
    assert (samples + [s])[..|samples|] == samples;
  }

  // ----- Conservation

  /** The values of one series. */
  ghost function SeriesSum(samples: seq<Sample>, series: string): real {
    if samples == [] then 0.0
    else
      var s := samples[|samples| - 1];
      SeriesSum(samples[..|samples| - 1], series) + if KeyOf(s.labels) == series then s.value else 0.0
  }

  /** Count times mean over a series' buckets. */
  ghost function Weighted(width: nat, samples: seq<Sample>, buckets: seq<Bucket>, series: string): real
    requires width > 0 && forall b :: b in buckets ==> Count(width, samples, b) > 0
  {
    if buckets == [] then 0.0
    else
      var b := buckets[|buckets| - 1];
      Weighted(width, samples, buckets[..|buckets| - 1], series)
      + if b.series == series then Count(width, samples, b) as real * Mean(width, samples, b) else 0.0
  }

  ghost function Total(width: nat, samples: seq<Sample>, buckets: seq<Bucket>, series: string): real
    requires width > 0
  {
    if buckets == [] then 0.0
    else
      var b := buckets[|buckets| - 1];
      Total(width, samples, buckets[..|buckets| - 1], series)
      + if b.series == series then Sum(width, samples, b) else 0.0
  }

  lemma TimesMean(n: real, sum: real)
    requires n > 0.0
    ensures n * (sum / n) == sum
  {
  }

  lemma {:induction false} WeightedIsTotal(width: nat, samples: seq<Sample>, buckets: seq<Bucket>, series: string)
    requires width > 0 && forall b :: b in buckets ==> Count(width, samples, b) > 0
    ensures Weighted(width, samples, buckets, series) == Total(width, samples, buckets, series)
    decreases |buckets|
  {
    if buckets != [] {
      var b := buckets[|buckets| - 1];
      WeightedIsTotal(width, samples, buckets[..|buckets| - 1], series);
      TimesMean(Count(width, samples, b) as real, Sum(width, samples, b));
    }
  }

  ghost predicate Distinct(buckets: seq<Bucket>) {
    forall i, j :: 0 <= i < j < |buckets| ==> buckets[i] != buckets[j]
  }

  /** One more sample raises the total of its series by its value. */
  lemma {:induction false} TotalAppend(width: nat, samples: seq<Sample>, s: Sample, buckets: seq<Bucket>,
                                       series: string)
    requires width > 0 && Distinct(buckets)
    ensures Total(width, samples + [s], buckets, series) == Total(width, samples, buckets, series)
              + if BucketOf(width, s) in buckets && KeyOf(s.labels) == series then s.value else 0.0
    decreases |buckets|
  {
    if buckets != [] {
      var front, b := buckets[..|buckets| - 1], buckets[|buckets| - 1];
      assert buckets == front + [b] && b !in front;
      TotalAppend(width, samples, s, front, series);
      TallyAppend(width, samples, s, b);
    }
  }

  lemma {:induction false} TotalNone(width: nat, buckets: seq<Bucket>, series: string)
    requires width > 0
    ensures Total(width, [], buckets, series) == 0.0
    decreases |buckets|
  {
    if buckets != [] {
      TotalNone(width, buckets[..|buckets| - 1], series);
    }
  }

  lemma {:induction false} TotalIsSum(width: nat, samples: seq<Sample>, buckets: seq<Bucket>, series: string)
    requires width > 0 && Distinct(buckets) && forall s :: s in samples ==> BucketOf(width, s) in buckets
    ensures Total(width, samples, buckets, series) == SeriesSum(samples, series)
    decreases |samples|
  {
    if samples == [] {
      TotalNone(width, buckets, series);
    } else {
      var front, s := samples[..|samples| - 1], samples[|samples| - 1];
      assert samples == front + [s];
      TotalIsSum(width, front, buckets, series);
      TotalAppend(width, front, s, buckets, series);
    }
  }

  /** Buckets without repeats that cover all samples keep every series' sum. */
  lemma {:induction false} SumsConserved(width: nat, samples: seq<Sample>, buckets: seq<Bucket>, series: string)
    requires width > 0 && Distinct(buckets) && forall s :: s in samples ==> BucketOf(width, s) in buckets
    requires forall b :: b in buckets ==> Count(width, samples, b) > 0
    ensures Weighted(width, samples, buckets, series) == SeriesSum(samples, series)
  {
    WeightedIsTotal(width, samples, buckets, series);
    TotalIsSum(width, samples, buckets, series);
  }

  // ----- Means

  ghost function Repeated(x: real, n: nat): real {
    if n == 0 then 0.0 else Repeated(x, n - 1) + x
  }

  lemma {:induction false} RepeatedIsProduct(x: real, n: nat)
    ensures Repeated(x, n) == x * n as real
  {
    if n > 0 {
      RepeatedIsProduct(x, n - 1);
      assert x * n as real == x * (n - 1) as real + x;
    }
  }

  lemma {:induction false} SumBounds(width: nat, samples: seq<Sample>, b: Bucket, lo: real, hi: real)
    requires width > 0 && forall s :: s in samples && BucketOf(width, s) == b ==> lo <= s.value <= hi
    ensures Repeated(lo, Count(width, samples, b)) <= Sum(width, samples, b) <= Repeated(hi, Count(width, samples, b))
    decreases |samples|
  {
    if samples != [] {
      var front, s := samples[..|samples| - 1], samples[|samples| - 1];
      assert s in samples;
      SumBounds(width, front, b, lo, hi);
    }
  }

  lemma Cancel(x: real, y: real, n: real)
    requires n > 0.0 && x * n <= y * n
    ensures x <= y
  {
  }

  lemma {:induction false} QuotientBounds(sum: real, n: nat, lo: real, hi: real)
    requires n > 0 && Repeated(lo, n) <= sum <= Repeated(hi, n)
    ensures lo <= sum / n as real <= hi
  {
    RepeatedIsProduct(lo, n);
    RepeatedIsProduct(hi, n);
    var d := n as real;
    var q := sum / d;
    assert q * d == sum;
    Cancel(lo, q, d);
    Cancel(q, hi, d);
  }

  /** A mean lies between any bounds its bucket's values keep; so means of
      ratios are ratios. */
  lemma {:induction false} MeanBounds(width: nat, samples: seq<Sample>, b: Bucket, lo: real, hi: real)
    requires width > 0 && Count(width, samples, b) > 0
    requires forall s :: s in samples && BucketOf(width, s) == b ==> lo <= s.value <= hi
    ensures lo <= Mean(width, samples, b) <= hi
  {
    SumBounds(width, samples, b, lo, hi);
    QuotientBounds(Sum(width, samples, b), Count(width, samples, b), lo, hi);
  }

  // ----- The order of the samples does not matter

  lemma {:induction false} TallyWithout(width: nat, x: seq<Sample>, s: Sample, y: seq<Sample>, b: Bucket)
    requires width > 0
    ensures Sum(width, x + [s] + y, b) == Sum(width, x + y, b) + if BucketOf(width, s) == b then s.value else 0.0
    ensures Count(width, x + [s] + y, b) == Count(width, x + y, b) + if BucketOf(width, s) == b then 1 else 0
    decreases |y|
  {
    if y == [] {
      assert x + [s] + y == x + [s] && x + y == x;
      TallyAppend(width, x, s, b);
    } else {
      var front, last := y[..|y| - 1], y[|y| - 1];
      assert x + [s] + y == (x + [s] + front) + [last] && x + y == (x + front) + [last];
      TallyWithout(width, x, s, front, b);
      TallyAppend(width, x + [s] + front, last, b);
      TallyAppend(width, x + front, last, b);
    }
  }

  lemma {:induction false} FindSample(a: seq<Sample>, b: seq<Sample>) returns (j: nat)
    requires a != [] && multiset(a) == multiset(b)
    ensures j < |b| && b[j] == a[|a| - 1]
  {
    assert a[|a| - 1] in multiset(b);
    j :| 0 <= j < |b| && b[j] == a[|a| - 1];
  }

  lemma {:induction false} TallyOfPermutation(width: nat, a: seq<Sample>, c: seq<Sample>, b: Bucket)
    requires width > 0 && multiset(a) == multiset(c)
    ensures Sum(width, a, b) == Sum(width, c, b) && Count(width, a, b) == Count(width, c, b)
    decreases |a|
  {
    if a == [] {
      assert |multiset(c)| == 0;
    } else {
      var front, s := a[..|a| - 1], a[|a| - 1];
      var j := FindSample(a, c);
      assert a == front + [s] && c == c[..j] + [s] + c[j + 1..];
      WithoutOne(front, c[..j], c[j + 1..], s);
      TallyOfPermutation(width, front, c[..j] + c[j + 1..], b);
      TallyWithout(width, c[..j], s, c[j + 1..], b);
    }
  }
}
