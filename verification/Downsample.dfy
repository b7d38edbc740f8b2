/** Downsampling a metric (internal/metricstore/downsample.go). */
module Downsample {
  import opened Common
  import opened Schema
  import opened Sorting
  import opened SeriesKey
  import opened Buckets

  datatype Resolution = Raw | OneMinute | FiveMinutes
  function BucketWidth(r: Resolution): Option<nat> {
    match r
    case Raw => None
    case OneMinute => Some(60_000)
    case FiveMinutes => Some(300_000)
  }

  predicate LessBucket(a: Bucket, b: Bucket) {
    if a.series != b.series then LessString(a.series, b.series) else a.start < b.start
  }

  lemma {:induction false} BucketOrder()
    ensures StrictOrder(LessBucket)
  {
    StringOrder();
    assert forall a, b, c | LessBucket(a, b) && LessBucket(b, c) :: LessBucket(a, c) by {
      forall a, b, c | LessBucket(a, b) && LessBucket(b, c) ensures LessBucket(a, c) {
        if LessString(a.series, b.series) && LessString(b.series, c.series) {
          StringTransitive(a.series, b.series, c.series);
        }
      }
    }
    forall a, b ensures LessBucket(a, b) || a == b || LessBucket(b, a) {
      StringTotal(a.series, b.series);
    }
  }

  const HOST := "host_id"
  const NAME := "__name__"

  function Host(labels: Labels): string {
    if HOST in labels then labels[HOST] else ""
  }

  function Extra(labels: Labels): Labels {
    labels - {HOST, NAME}
  }

  // ----- Accumulating

  /** The maps built so far are the tallies of the samples read so far. */
  ghost predicate Tallied(width: nat, samples: seq<Sample>, sums: map<Bucket, real>, counts: map<Bucket, nat>)
    requires width > 0
  {
    && sums.Keys == counts.Keys
    && forall b :: (b in sums <==> Count(width, samples, b) > 0)
                   && (b in sums ==> sums[b] == Sum(width, samples, b) && counts[b] == Count(width, samples, b))
  }

  /** Each series' entry holds the labels of one of its samples. */
  ghost predicate Labelled(samples: seq<Sample>, labelsByKey: map<string, Labels>) {
    && (forall i :: 0 <= i < |samples| ==> KeyOf(samples[i].labels) in labelsByKey)
    && (forall k :: k in labelsByKey ==>
          KeyOf(labelsByKey[k]) == k && exists i :: 0 <= i < |samples| && samples[i].labels == labelsByKey[k])
  }

  lemma {:induction false} NoTallies(width: nat, b: Bucket)
    requires width > 0
    ensures Count(width, [], b) == 0
  {
  }

  lemma {:induction false} SumOfNone(width: nat, samples: seq<Sample>, b: Bucket)
    requires width > 0 && Count(width, samples, b) == 0
    ensures Sum(width, samples, b) == 0.0
    decreases |samples|
  {
    if samples != [] {
      SumOfNone(width, samples[..|samples| - 1], b);
    }
  }

  lemma {:induction false} TalliedStep(width: nat, samples: seq<Sample>, s: Sample, sums: map<Bucket, real>,
                                       counts: map<Bucket, nat>)
    requires width > 0 && Tallied(width, samples, sums, counts)
    ensures var b := BucketOf(width, s);
            Tallied(width, samples + [s],
                    sums[b := (if b in sums then sums[b] else 0.0) + s.value],
                    counts[b := (if b in counts then counts[b] else 0) + 1])
  {
    var bk := BucketOf(width, s);
    SumIfNew(width, samples, bk);
    forall b ensures Count(width, samples + [s], b) == Count(width, samples, b) + (if b == bk then 1 else 0)
                  && Sum(width, samples + [s], b) == Sum(width, samples, b) + (if b == bk then s.value else 0.0)
    {
      TallyAppend(width, samples, s, b);
    }
  }

  lemma {:induction false} SumIfNew(width: nat, samples: seq<Sample>, b: Bucket)
    requires width > 0
    ensures Count(width, samples, b) == 0 ==> Sum(width, samples, b) == 0.0
  {
    if Count(width, samples, b) == 0 {
      SumOfNone(width, samples, b);
    }
  }

  lemma {:induction false} LabelledStep(samples: seq<Sample>, s: Sample, labelsByKey: map<string, Labels>)
    requires Labelled(samples, labelsByKey)
    ensures Labelled(samples + [s], labelsByKey[KeyOf(s.labels) := s.labels])
  {
    var more := samples + [s];
    var known := labelsByKey[KeyOf(s.labels) := s.labels];
    assert more[|samples|] == s;
    forall k | k in known ensures exists i :: 0 <= i < |more| && more[i].labels == known[k] {
      if k != KeyOf(s.labels) {
        var i :| 0 <= i < |samples| && samples[i].labels == labelsByKey[k];
        assert more[i] == samples[i];
      }
    }
  }

  /** Adds one sample to the maps. */
  method AddSample(width: nat, s: Sample, sums: map<Bucket, real>, counts: map<Bucket, nat>,
                   labelsByKey: map<string, Labels>,
                   ghost done: seq<Sample>)
      returns (sums': map<Bucket, real>, counts': map<Bucket, nat>, labelsByKey': map<string, Labels>)
    requires width > 0 && Tallied(width, done, sums, counts) && Labelled(done, labelsByKey)
    ensures Tallied(width, done + [s], sums', counts') && Labelled(done + [s], labelsByKey')
  {
    TalliedStep(width, done, s, sums, counts);
    LabelledStep(done, s, labelsByKey);
    var key := SeriesLabelKey(s.labels);
    KeyUnique(s.labels, key, KeyOf(s.labels));
    labelsByKey' := labelsByKey[key := s.labels];
    var b := Bucket(key, Start(width, s.ts));
    sums' := sums[b := (if b in sums then sums[b] else 0.0) + s.value];
    counts' := counts[b := (if b in counts then counts[b] else 0) + 1];
  }

  method Accumulate(width: nat, samples: seq<Sample>)
      returns (sums: map<Bucket, real>, counts: map<Bucket, nat>, labelsByKey: map<string, Labels>)
    requires width > 0
    ensures Tallied(width, samples, sums, counts) && Labelled(samples, labelsByKey)
  {
    sums, counts, labelsByKey := map[], map[], map[];
    ghost var done := [];
    Nothing(width);
    for i := 0 to |samples|
      invariant done == samples[..i]
      invariant Tallied(width, done, sums, counts) && Labelled(done, labelsByKey)
    {
      sums, counts, labelsByKey := AddSample(width, samples[i], sums, counts, labelsByKey, done);
      done := done + [samples[i]];
    }
    assert done == samples;
  }

  lemma Nothing(width: nat)
    requires width > 0
    ensures Tallied(width, [], map[], map[]) && Labelled([], map[])
  {
    forall b ensures Count(width, [], b) == 0 {
      NoTallies(width, b);
    }
  }

  method SortBuckets(all: set<Bucket>) returns (buckets: seq<Bucket>)
    ensures Sorted(LessBucket, buckets) && forall b :: b in buckets <==> b in all
  {
    BucketOrder();
    buckets := [];
    var todo := all;
    while todo != {}
      invariant todo <= all
      invariant Sorted(LessBucket, buckets) && forall b :: b in buckets <==> b in all - todo
      decreases todo
    {
      var b :| b in todo;
      buckets := Insert(LessBucket, buckets, b);
      todo := todo - {b};
    }
  }

  // ----- The result

  /** One metric per bucket that has samples, in order of series and time,
      with the mean of the bucket and the labels of its series. */
  ghost predicate IsDownsampled(width: nat, name: string, samples: seq<Sample>, buckets: seq<Bucket>, out: seq<Metric>)
    requires width > 0
  {
    && Sorted(LessBucket, buckets) && (forall b :: b in buckets <==> Count(width, samples, b) > 0)
    && |out| == |buckets|
    && forall i :: 0 <= i < |out| ==> Emitted(width, name, samples, buckets[i], out[i])
  }

  ghost predicate Emitted(width: nat, name: string, samples: seq<Sample>, b: Bucket, m: Metric)
    requires width > 0
  {
    && m.name == name && m.ts == b.start
    && Count(width, samples, b) > 0 && m.value == Mean(width, samples, b)
    && exists i :: 0 <= i < |samples| && KeyOf(samples[i].labels) == b.series
                   && m.hostId == Host(samples[i].labels) && m.labels == Extra(samples[i].labels)
  }

  lemma {:induction false} SampleOfBucket(width: nat, samples: seq<Sample>, b: Bucket) returns (i: nat)
    requires width > 0 && Count(width, samples, b) > 0
    ensures i < |samples| && BucketOf(width, samples[i]) == b
    decreases |samples|
  {
    if BucketOf(width, samples[|samples| - 1]) == b {
      i := |samples| - 1;
    } else {
      i := SampleOfBucket(width, samples[..|samples| - 1], b);
    }
  }

  method Emit(width: nat, name: string, ghost samples: seq<Sample>, b: Bucket,
              sums: map<Bucket, real>, counts: map<Bucket, nat>, labelsByKey: map<string, Labels>) returns (m: Metric)
    requires width > 0 && Tallied(width, samples, sums, counts) && Labelled(samples, labelsByKey) && b in sums
    ensures Emitted(width, name, samples, b, m)
  {
    ghost var n := SampleOfBucket(width, samples, b);
    assert KeyOf(samples[n].labels) == b.series;
    var labels := labelsByKey[b.series];
    m := Metric(name, Host(labels), Extra(labels), sums[b] / counts[b] as real, b.start);
  }

  method EmitAll(width: nat, name: string, ghost samples: seq<Sample>, order: seq<Bucket>,
                 sums: map<Bucket, real>, counts: map<Bucket, nat>, labelsByKey: map<string, Labels>)
      returns (out: seq<Metric>)
    requires width > 0 && Tallied(width, samples, sums, counts) && Labelled(samples, labelsByKey)
    requires forall i :: 0 <= i < |order| ==> order[i] in sums
    ensures |out| == |order| && forall i :: 0 <= i < |out| ==> Emitted(width, name, samples, order[i], out[i])
  {
    out := [];
    for i := 0 to |order|
      invariant |out| == i
      invariant forall j :: 0 <= j < i ==> Emitted(width, name, samples, order[j], out[j])
    {
      var m := Emit(width, name, samples, order[i], sums, counts, labelsByKey);
      out := out + [m];
    }
  }

  method RunWidth(width: nat, name: string, samples: seq<Sample>) returns (out: seq<Metric>, ghost buckets: seq<Bucket>)
    requires width > 0
    ensures IsDownsampled(width, name, samples, buckets, out)
  {
    buckets := [];
    if samples == [] {
      Nothing(width);
      return [], [];
    }
    var sums, counts, labelsByKey := Accumulate(width, samples);
    var order := SortBuckets(sums.Keys);
    assert forall i :: 0 <= i < |order| ==> order[i] in order;
    out := EmitAll(width, name, samples, order, sums, counts, labelsByKey);
    buckets := order;
  }

  /** Nothing for a resolution without buckets; otherwise the metrics
      appended to the destination, in order. */
  method Run(resolution: Resolution, name: string, samples: seq<Sample>)
      returns (out: Option<seq<Metric>>, ghost buckets: seq<Bucket>)
    ensures out.None? <==> resolution.Raw?
    ensures resolution.OneMinute? ==> IsDownsampled(60 * 1000, name, samples, buckets, out.value)
    ensures resolution.FiveMinutes? ==> IsDownsampled(5 * 60 * 1000, name, samples, buckets, out.value)
  {
    var w := BucketWidth(resolution);
    buckets := [];
    if w.None? {
      return None, [];
    }
    var metrics;
    metrics, buckets := RunWidth(w.value, name, samples);
    return Some(metrics), buckets;
  }

  // ----- What it means

  /** A metric emitted for a series says which one: with the host and the name
      put back its labels are those of the series. */
  lemma {:induction false} SeriesRestored(labels: Labels)
    requires "host_id" in labels && "__name__" in labels
    ensures Extra(labels)["host_id" := Host(labels)]["__name__" := labels["__name__"]] == labels
    ensures "host_id" !in Extra(labels) && "__name__" !in Extra(labels)
  {
  }

  lemma {:induction false} EmittedLabels(width: nat, name: string, samples: seq<Sample>, b: Bucket, m: Metric)
      returns (i: nat)
    requires width > 0 && Emitted(width, name, samples, b, m)
    requires forall j :: 0 <= j < |samples| ==>
               && "host_id" in samples[j].labels
               && "__name__" in samples[j].labels && samples[j].labels["__name__"] == name
    ensures i < |samples| && KeyOf(samples[i].labels) == b.series
    ensures m.labels["host_id" := m.hostId]["__name__" := m.name] == samples[i].labels
  {
    i :| 0 <= i < |samples| && KeyOf(samples[i].labels) == b.series
         && m.hostId == Host(samples[i].labels) && m.labels == Extra(samples[i].labels);
    SeriesRestored(samples[i].labels);
  }

  /** Within a series the emitted timestamps strictly increase. */
  lemma {:induction false} TimesIncrease(width: nat, name: string, samples: seq<Sample>, buckets: seq<Bucket>,
                                         out: seq<Metric>, i: nat, j: nat)
    requires width > 0 && IsDownsampled(width, name, samples, buckets, out)
    requires i < j < |out| && buckets[i].series == buckets[j].series
    ensures out[i].ts < out[j].ts
  {
    assert LessBucket(buckets[i], buckets[j]);
  }

  lemma {:induction false} CountOfMember(width: nat, samples: seq<Sample>, i: nat)
    requires width > 0 && i < |samples|
    ensures Count(width, samples, BucketOf(width, samples[i])) > 0
    decreases |samples|
  {
    if i < |samples| - 1 {
      CountOfMember(width, samples[..|samples| - 1], i);
    }
  }

  /** Over a series, count times emitted value adds up to the values read. */
  lemma {:induction false} Conserves(width: nat, name: string, samples: seq<Sample>, buckets: seq<Bucket>,
                                     out: seq<Metric>, series: string)
    requires width > 0 && IsDownsampled(width, name, samples, buckets, out)
    ensures Weighted(width, samples, buckets, series) == SeriesSum(samples, series)
    ensures forall i :: 0 <= i < |out| ==> out[i].value == Mean(width, samples, buckets[i])
  {
    forall s | s in samples ensures BucketOf(width, s) in buckets {
      var i :| 0 <= i < |samples| && samples[i] == s;
      CountOfMember(width, samples, i);
    }
    forall i, j | 0 <= i < j < |buckets| ensures buckets[i] != buckets[j] {
      BucketOrder();
      assert LessBucket(buckets[i], buckets[j]);
    }
    SumsConserved(width, samples, buckets, series);
    forall i | 0 <= i < |out| ensures out[i].value == Mean(width, samples, buckets[i]) {
      assert Emitted(width, name, samples, buckets[i], out[i]);
    }
  }

  /** The samples' label sets are told apart by their keys. */
  ghost predicate KeysTellApart(samples: seq<Sample>) {
    forall i, j :: 0 <= i < |samples| && 0 <= j < |samples| && KeyOf(samples[i].labels) == KeyOf(samples[j].labels) ==>
      samples[i].labels == samples[j].labels
  }

  lemma {:induction false} EmittedUnique(width: nat, name: string, samples: seq<Sample>, b: Bucket, m: Metric,
                                         m': Metric)
    requires width > 0 && KeysTellApart(samples)
    requires Emitted(width, name, samples, b, m) && Emitted(width, name, samples, b, m')
    ensures m == m'
  {
  }

  lemma {:induction false} EmittedPermuted(width: nat, name: string, samples: seq<Sample>, other: seq<Sample>,
                                           b: Bucket, m: Metric)
    requires width > 0 && multiset(samples) == multiset(other) && Emitted(width, name, other, b, m)
    ensures Emitted(width, name, samples, b, m)
  {
    TallyOfPermutation(width, samples, other, b);
    var i :| 0 <= i < |other| && KeyOf(other[i].labels) == b.series
             && m.hostId == Host(other[i].labels) && m.labels == Extra(other[i].labels);
    assert other[i] in multiset(other);
    assert other[i] in multiset(samples);
    var j :| 0 <= j < |samples| && samples[j] == other[i];
  }

  /** The order in which samples are read does not matter. */
  lemma {:induction false} OrderIrrelevant(width: nat, name: string, samples: seq<Sample>, other: seq<Sample>,
                                           buckets: seq<Bucket>, buckets': seq<Bucket>, out: seq<Metric>,
                                           out': seq<Metric>)
    requires width > 0 && multiset(samples) == multiset(other) && KeysTellApart(samples)
    requires IsDownsampled(width, name, samples, buckets, out) && IsDownsampled(width, name, other, buckets', out')
    ensures out == out' && buckets == buckets'
  {
    forall b ensures b in buckets <==> b in buckets' {
      TallyOfPermutation(width, samples, other, b);
    }
    BucketOrder();
    SortedUnique(LessBucket, buckets, buckets');
    forall i | 0 <= i < |out| ensures out[i] == out'[i] {
      EmittedPermuted(width, name, samples, other, buckets[i], out'[i]);
      EmittedUnique(width, name, samples, buckets[i], out[i], out'[i]);
    }
  }

  /** With suitable alphabets for names and values the output never depends
      on the order, whatever the samples. */
  lemma {:induction false} OrderNeverMatters(
    width: nat, name: string, samples: seq<Sample>, other: seq<Sample>, buckets: seq<Bucket>, buckets': seq<Bucket>,
    out: seq<Metric>, out': seq<Metric>, names: set<char>, values: set<char>)
    requires width > 0 && multiset(samples) == multiset(other)
    requires Readable(names, values)
    requires forall i :: 0 <= i < |samples| ==> Over(samples[i].labels, names, values)
    requires IsDownsampled(width, name, samples, buckets, out) && IsDownsampled(width, name, other, buckets', out')
    ensures out == out' && buckets == buckets'
  {
    forall i, j | 0 <= i < |samples| && 0 <= j < |samples| && KeyOf(samples[i].labels) == KeyOf(samples[j].labels)
      ensures samples[i].labels == samples[j].labels
    {
      KeyInjectiveOver(samples[i].labels, samples[j].labels, KeyOf(samples[i].labels), names, values);
    }
    OrderIrrelevant(width, name, samples, other, buckets, buckets', out, out');
  }
}
