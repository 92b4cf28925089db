/** The discrete part of the estimators in src/transforms.rs: frequency
    buckets and their centres, the strongest-significant-bucket estimator,
    and the autocorrelation estimator up to the index of its peak. An f64 is
    a real here; the Fourier transform itself is not modelled and its output
    intensities are an input. */
module Transforms {

  import opened Wrappers

  /** One bucket of a spectrum: a frequency band and the intensity in it. */
  datatype FrequencyBucket = FrequencyBucket(minFreq: real, maxFreq: real, intensity: real) {

    /** ave_freq: the centre of the band. */
    function AveFreq(): (r: real)
      ensures r - minFreq == maxFreq - r
      ensures minFreq <= maxFreq ==> minFreq <= r <= maxFreq
    {
      (minFreq + maxFreq) / 2.0
    }
  }

  /** The width of every bucket of a spectrum of `frames` samples. */
  function Resolution(sampleRate: real, frames: nat): (r: real)
    requires frames > 0
    ensures r * frames as real == sampleRate / 2.0
  {
    sampleRate / 2.0 / frames as real
  }

  /** The bucket mapping of fft: one bucket per transformed sample, bucket k
      spanning [k * res, (k + 1) * res] with the k-th intensity. */
  function Fft(intensities: seq<real>, sampleRate: real): (r: seq<FrequencyBucket>)
    ensures |r| == |intensities|
    ensures forall k :: 0 <= k < |r| ==> r[k].intensity == intensities[k]
  {
    if |intensities| == 0 then []
    else
      var res := Resolution(sampleRate, |intensities|);
      seq(|intensities|, k requires 0 <= k < |intensities| =>
        FrequencyBucket(k as real * res, (k as real + 1.0) * res, intensities[k]))
  }

  /** The buckets tile the band from 0 up to half the sample rate: the first
      starts at 0, each ends where the next starts, the last ends at
      sampleRate / 2, and all have the same width. */
  lemma FftBucketsTile(intensities: seq<real>, sampleRate: real)
    requires |intensities| > 0
    ensures var r := Fft(intensities, sampleRate);
      && r[0].minFreq == 0.0
      && r[|r| - 1].maxFreq == sampleRate / 2.0
      && (forall k :: 0 <= k < |r| - 1 ==> r[k].maxFreq == r[k + 1].minFreq)
      && (forall k :: 0 <= k < |r| ==> r[k].maxFreq - r[k].minFreq == Resolution(sampleRate, |intensities|))
  {
    var n := |intensities|;
    var res := Resolution(sampleRate, n);
    assert n as real * res == sampleRate / 2.0;
  }

  /** Bucket k's centre is (k + 1/2) * res, so a frequency estimate taken from
      a bucket is the centre of that bucket. */
  lemma FftCentres(intensities: seq<real>, sampleRate: real, k: nat)
    requires k < |intensities|
    ensures Fft(intensities, sampleRate)[k].AveFreq() == (k as real + 0.5) * Resolution(sampleRate, |intensities|)
  {
  }

  /** The buckets whose intensity exceeds `t`, in order (a filter). */
  function Above(buckets: seq<FrequencyBucket>, t: real): (r: seq<FrequencyBucket>)
    ensures |r| <= |buckets|
  {
    if buckets == [] then []
    else if buckets[0].intensity > t then [buckets[0]] + Above(buckets[1..], t)
    else Above(buckets[1..], t)
  }

  /** The sum of the intensities. */
  function SumIntensity(buckets: seq<FrequencyBucket>): real {
    if buckets == [] then 0.0 else buckets[0].intensity + SumIntensity(buckets[1..])
  }

  /** average_intensity: the sum of the positive intensities over the number
      of ALL buckets. With no buckets there are no positive ones and the value
      is never used; 0 stands for the NaN that 0 / 0 gives there. */
  function AverageIntensity(frequencyDomain: seq<FrequencyBucket>): real {
    if |frequencyDomain| == 0 then 0.0
    else SumIntensity(Above(frequencyDomain, 0.0)) / |frequencyDomain| as real
  }

  /** significant_buckets: the positive buckets above the average. */
  function Significant(frequencyDomain: seq<FrequencyBucket>): seq<FrequencyBucket> {
    Above(Above(frequencyDomain, 0.0), AverageIntensity(frequencyDomain))
  }

  /** The fold of find_fundamental_frequency: a bucket replaces the one held
      when nothing is held yet or when it is strictly more intense. */
  function FoldMax(held: Option<FrequencyBucket>, buckets: seq<FrequencyBucket>): Option<FrequencyBucket>
    decreases |buckets|
  {
    if buckets == [] then held
    else
      var next := buckets[0];
      FoldMax(if held.None? || held.value.intensity < next.intensity then Some(next) else held, buckets[1..])
  }

  /** What find_fundamental_frequency does: Panicked is the `unwrap` of an
      empty fold. */
  datatype Outcome = Returned(hz: real) | Panicked

  function FindFundamentalFrequency(frequencyDomain: seq<FrequencyBucket>): Outcome {
    match FoldMax(None, Significant(frequencyDomain))
    case None => Panicked
    case Some(b) => Returned(b.AveFreq())
  }

  /** The intensity a bucket must exceed to be significant: above 0 and above
      the average. The first branch is never taken (ThresholdIsAverage). */
  function Threshold(frequencyDomain: seq<FrequencyBucket>): real {
    var avg := AverageIntensity(frequencyDomain);
    if avg < 0.0 then 0.0 else avg
  }

  /** Intensities above a non-negative threshold never sum to a negative
      number. */
  lemma {:induction false} SumAboveNonNegative(buckets: seq<FrequencyBucket>, t: real)
    requires t >= 0.0
    ensures SumIntensity(Above(buckets, t)) >= 0.0
  {
    if buckets != [] {
      SumAboveNonNegative(buckets[1..], t);
    }
  }

  /** average_intensity sums only positive intensities, so it is never
      negative and the threshold is the average itself. */
  lemma ThresholdIsAverage(frequencyDomain: seq<FrequencyBucket>)
    ensures AverageIntensity(frequencyDomain) >= 0.0
    ensures Threshold(frequencyDomain) == AverageIntensity(frequencyDomain)
  {
    if |frequencyDomain| > 0 {
      SumAboveNonNegative(frequencyDomain, 0.0);
    }
  }

  /** Reference definition: index k holds the first bucket of highest
      intensity among those above `t`. */
  ghost predicate IsFirstMax(buckets: seq<FrequencyBucket>, t: real, k: int) {
    && 0 <= k < |buckets|
    && buckets[k].intensity > t
    && (forall j :: 0 <= j < |buckets| && buckets[j].intensity > t ==> buckets[j].intensity <= buckets[k].intensity)
    && (forall j :: 0 <= j < k && buckets[j].intensity > t ==> buckets[j].intensity < buckets[k].intensity)
  }

  /** Filtering twice is filtering by the larger threshold. */
  lemma {:induction false} AboveAbove(buckets: seq<FrequencyBucket>, a: real, b: real)
    ensures Above(Above(buckets, a), b) == Above(buckets, if a < b then b else a)
  {
    if buckets != [] {
      AboveAbove(buckets[1..], a, b);
      if buckets[0].intensity > a {
        assert Above(buckets, a) == [buckets[0]] + Above(buckets[1..], a);
        assert Above(buckets, a)[1..] == Above(buckets[1..], a);
      }
    }
  }

  /** The fold over the filtered buckets, fused: it skips what the filter drops. */
  function FoldMaxAbove(held: Option<FrequencyBucket>, buckets: seq<FrequencyBucket>, t: real): Option<FrequencyBucket>
    decreases |buckets|
  {
    if buckets == [] then held
    else
      var next := buckets[0];
      var held' := if next.intensity > t && (held.None? || held.value.intensity < next.intensity) then Some(next) else held;
      FoldMaxAbove(held', buckets[1..], t)
  }

  lemma {:induction false} FoldMaxOfAbove(held: Option<FrequencyBucket>, buckets: seq<FrequencyBucket>, t: real)
    ensures FoldMax(held, Above(buckets, t)) == FoldMaxAbove(held, buckets, t)
    decreases |buckets|
  {
    if buckets != [] {
      if buckets[0].intensity > t {
        var f := Above(buckets, t);
        assert f[0] == buckets[0] && f[1..] == Above(buckets[1..], t);
        var next := buckets[0];
        FoldMaxOfAbove(if held.None? || held.value.intensity < next.intensity then Some(next) else held, buckets[1..], t);
      } else {
        FoldMaxOfAbove(held, buckets[1..], t);
      }
    }
  }

  /** No bucket above `t` is more intense than `v`. */
  ghost predicate AtMost(buckets: seq<FrequencyBucket>, t: real, v: real) {
    forall j :: 0 <= j < |buckets| && buckets[j].intensity > t ==> buckets[j].intensity <= v
  }

  lemma AtMostCons(buckets: seq<FrequencyBucket>, t: real, v: real)
    requires |buckets| > 0
    ensures AtMost(buckets, t, v) <==>
      (buckets[0].intensity > t ==> buckets[0].intensity <= v) && AtMost(buckets[1..], t, v)
  {
    assert forall j :: 0 <= j < |buckets| - 1 ==> buckets[1..][j] == buckets[j + 1];
    if (buckets[0].intensity > t ==> buckets[0].intensity <= v) && AtMost(buckets[1..], t, v) {
      forall j | 0 <= j < |buckets| && buckets[j].intensity > t
        ensures buckets[j].intensity <= v
      {
        if j > 0 {
          assert buckets[j] == buckets[1..][j - 1];
        }
      }
    }
  }

  /** The head is the first maximum when nothing after it is more intense. */
  lemma HeadIsFirstMax(buckets: seq<FrequencyBucket>, t: real)
    requires |buckets| > 0 && buckets[0].intensity > t && AtMost(buckets[1..], t, buckets[0].intensity)
    ensures IsFirstMax(buckets, t, 0)
  {
    AtMostCons(buckets, t, buckets[0].intensity);
  }

  /** A first maximum of the tail is one of the whole sequence unless the
      head is above `t` and at least as intense. */
  lemma ShiftFirstMax(buckets: seq<FrequencyBucket>, t: real, k: int)
    requires |buckets| > 0 && IsFirstMax(buckets[1..], t, k)
    requires buckets[0].intensity > t ==> buckets[0].intensity < buckets[k + 1].intensity
    ensures IsFirstMax(buckets, t, k + 1)
  {
    var v := buckets[k + 1].intensity;
    assert buckets[1..][k] == buckets[k + 1];
    assert AtMost(buckets[1..], t, v);
    AtMostCons(buckets, t, v);
    forall j | 0 <= j < k + 1 && buckets[j].intensity > t
      ensures buckets[j].intensity < v
    {
      if j > 0 {
        assert buckets[j] == buckets[1..][j - 1];
      }
    }
  }

  /** Holding `a`, the fold keeps `a` when nothing above `t` is more intense
      and otherwise ends on the first bucket of highest intensity. */
  lemma {:induction false} FoldMaxAboveFrom(a: FrequencyBucket, buckets: seq<FrequencyBucket>, t: real)
    ensures AtMost(buckets, t, a.intensity) ==> FoldMaxAbove(Some(a), buckets, t) == Some(a)
    ensures !AtMost(buckets, t, a.intensity) ==>
      exists k :: IsFirstMax(buckets, t, k) && a.intensity < buckets[k].intensity
                  && FoldMaxAbove(Some(a), buckets, t) == Some(buckets[k])
    decreases |buckets|
  {
    if buckets != [] {
      var next, rest := buckets[0], buckets[1..];
      AtMostCons(buckets, t, a.intensity);
      if next.intensity > t && a.intensity < next.intensity {
        FoldMaxAboveFrom(next, rest, t);
        if AtMost(rest, t, next.intensity) {
          HeadIsFirstMax(buckets, t);
        } else {
          var k :| IsFirstMax(rest, t, k) && next.intensity < rest[k].intensity
                   && FoldMaxAbove(Some(next), rest, t) == Some(rest[k]);
          ShiftFirstMax(buckets, t, k);
        }
      } else {
        FoldMaxAboveFrom(a, rest, t);
        if !AtMost(rest, t, a.intensity) {
          var k :| IsFirstMax(rest, t, k) && a.intensity < rest[k].intensity
                   && FoldMaxAbove(Some(a), rest, t) == Some(rest[k]);
          ShiftFirstMax(buckets, t, k);
        }
      }
    }
  }

  /** From nothing held, the fused fold finds nothing exactly when no bucket
      is above `t`, and otherwise some first bucket of highest intensity. */
  lemma {:induction false} FoldMaxAboveFromNothing(buckets: seq<FrequencyBucket>, t: real)
    ensures FoldMaxAbove(None, buckets, t).None? <==> forall j :: 0 <= j < |buckets| ==> buckets[j].intensity <= t
    ensures FoldMaxAbove(None, buckets, t).Some? ==>
      exists k :: IsFirstMax(buckets, t, k) && FoldMaxAbove(None, buckets, t) == Some(buckets[k])
    decreases |buckets|
  {
    if buckets != [] {
      var next, rest := buckets[0], buckets[1..];
      assert forall j :: 0 <= j < |rest| ==> rest[j] == buckets[j + 1];
      if next.intensity > t {
        FoldMaxAboveFrom(next, rest, t);
        if AtMost(rest, t, next.intensity) {
          HeadIsFirstMax(buckets, t);
        } else {
          var k :| IsFirstMax(rest, t, k) && next.intensity < rest[k].intensity
                   && FoldMaxAbove(Some(next), rest, t) == Some(rest[k]);
          ShiftFirstMax(buckets, t, k);
        }
      } else {
        FoldMaxAboveFromNothing(rest, t);
        if FoldMaxAbove(None, rest, t).Some? {
          var k :| IsFirstMax(rest, t, k) && FoldMaxAbove(None, rest, t) == Some(rest[k]);
          ShiftFirstMax(buckets, t, k);
        }
      }
    }
  }

  /** At most one index is the first of highest intensity. */
  lemma FirstMaxUnique(buckets: seq<FrequencyBucket>, t: real, k: int, k': int)
    requires IsFirstMax(buckets, t, k) && IsFirstMax(buckets, t, k')
    ensures k == k'
  {
  }

  /** The fold over the significant buckets is the fused fold with the
      threshold. */
  lemma SignificantFold(frequencyDomain: seq<FrequencyBucket>)
    ensures FoldMax(None, Significant(frequencyDomain)) == FoldMaxAbove(None, frequencyDomain, Threshold(frequencyDomain))
  {
    AboveAbove(frequencyDomain, 0.0, AverageIntensity(frequencyDomain));
    FoldMaxOfAbove(None, frequencyDomain, Threshold(frequencyDomain));
  }

  /** find_fundamental_frequency panics exactly when no bucket is above the
      threshold: positive and above the average. */
  lemma FindFundamentalFrequencyPanics(frequencyDomain: seq<FrequencyBucket>)
    ensures FindFundamentalFrequency(frequencyDomain).Panicked? <==>
      forall j :: 0 <= j < |frequencyDomain| ==> frequencyDomain[j].intensity <= Threshold(frequencyDomain)
  {
    SignificantFold(frequencyDomain);
    FoldMaxAboveFromNothing(frequencyDomain, Threshold(frequencyDomain));
  }

  /** Otherwise it returns the centre of the first bucket of highest
      intensity among those above the threshold. */
  lemma FindFundamentalFrequencyReturns(frequencyDomain: seq<FrequencyBucket>, k: int)
    requires IsFirstMax(frequencyDomain, Threshold(frequencyDomain), k)
    ensures FindFundamentalFrequency(frequencyDomain) == Returned(frequencyDomain[k].AveFreq())
  {
    var t := Threshold(frequencyDomain);
    SignificantFold(frequencyDomain);
    FoldMaxAboveFromNothing(frequencyDomain, t);
    var k' :| IsFirstMax(frequencyDomain, t, k') && FoldMaxAbove(None, frequencyDomain, t) == Some(frequencyDomain[k']);
    FirstMaxUnique(frequencyDomain, t, k, k');
  }

  /** Every value it returns is the centre of such a bucket. */
  lemma FindFundamentalFrequencyReturnsACentre(frequencyDomain: seq<FrequencyBucket>)
    ensures FindFundamentalFrequency(frequencyDomain).Returned? ==>
      exists k :: IsFirstMax(frequencyDomain, Threshold(frequencyDomain), k)
                  && FindFundamentalFrequency(frequencyDomain).hz == frequencyDomain[k].AveFreq()
  {
    SignificantFold(frequencyDomain);
    FoldMaxAboveFromNothing(frequencyDomain, Threshold(frequencyDomain));
  }

  /** The number of buckets above `t` times the largest intensity bounds
      their sum. */
  lemma {:induction false} SumAboveAtMost(buckets: seq<FrequencyBucket>, t: real, m: real)
    requires forall j :: 0 <= j < |buckets| ==> buckets[j].intensity <= m
    ensures SumIntensity(Above(buckets, t)) <= |Above(buckets, t)| as real * m
  {
    if buckets != [] {
      var rest := buckets[1..];
      assert forall j :: 0 <= j < |rest| ==> rest[j] == buckets[j + 1];
      SumAboveAtMost(rest, t, m);
      if buckets[0].intensity > t {
        var above, restAbove := Above(buckets, t), Above(rest, t);
        assert above == [buckets[0]] + restAbove;
        assert above[1..] == restAbove;
        var k := |restAbove| as real;
        assert |above| as real == k + 1.0;
        calc {
          SumIntensity(above);
          buckets[0].intensity + SumIntensity(restAbove);
        <= m + k * m;
          (k + 1.0) * m;
          |above| as real * m;
        }
      } else {
        assert Above(buckets, t) == Above(rest, t);
      }
    }
  }

  /** A bucket that is not above `t` leaves the filter strictly shorter. */
  lemma {:induction false} AboveDropsOne(buckets: seq<FrequencyBucket>, t: real, i: nat)
    requires i < |buckets| && buckets[i].intensity <= t
    ensures |Above(buckets, t)| < |buckets|
  {
    if i > 0 {
      AboveDropsOne(buckets[1..], t, i - 1);
    }
  }

  /** The first bucket of highest intensity of a sequence. */
  lemma {:induction false} FirstMaxExists(buckets: seq<FrequencyBucket>, t: real, i: nat)
    requires i < |buckets| && buckets[i].intensity > t
    ensures exists k :: IsFirstMax(buckets, t, k)
  {
    FoldMaxAboveFromNothing(buckets, t);
  }

  /** A sum of p values of at most m, spread over n > p places, averages
      below m. */
  lemma MeanBelowMax(s: real, p: nat, n: nat, m: real)
    requires p < n && m > 0.0 && s <= p as real * m
    ensures s / n as real < m
  {
    assert (n as real - p as real) * m > 0.0;
    assert s < n as real * m;
  }

  /** With at least one positive and at least one non-positive bucket, the
      average stays below the most intense bucket, so the estimator never
      panics. */
  lemma NeverPanicsOnMixedSpectrum(frequencyDomain: seq<FrequencyBucket>, p: nat, q: nat)
    requires p < |frequencyDomain| && frequencyDomain[p].intensity > 0.0
    requires q < |frequencyDomain| && frequencyDomain[q].intensity <= 0.0
    ensures FindFundamentalFrequency(frequencyDomain).Returned?
  {
    var n := |frequencyDomain|;
    FirstMaxExists(frequencyDomain, 0.0, p);
    var k :| IsFirstMax(frequencyDomain, 0.0, k);
    var m := frequencyDomain[k].intensity;
    forall j | 0 <= j < n
      ensures frequencyDomain[j].intensity <= m
    {
      if frequencyDomain[j].intensity > 0.0 {
        assert IsFirstMax(frequencyDomain, 0.0, k);
      }
    }
    SumAboveAtMost(frequencyDomain, 0.0, m);
    AboveDropsOne(frequencyDomain, 0.0, q);
    var positives := Above(frequencyDomain, 0.0);
    MeanBelowMax(SumIntensity(positives), |positives|, n, m);
    assert m > Threshold(frequencyDomain);
    FindFundamentalFrequencyPanics(frequencyDomain);
  }

  /** A flat positive spectrum puts every bucket at the average: nothing is
      significant and the `unwrap` panics. */
  lemma {:induction false} FlatSpectrumPanics(frequencyDomain: seq<FrequencyBucket>, v: real)
    requires |frequencyDomain| > 0 && v > 0.0
    requires forall j :: 0 <= j < |frequencyDomain| ==> frequencyDomain[j].intensity == v
    ensures FindFundamentalFrequency(frequencyDomain) == Panicked
  {
    var n := |frequencyDomain| as real;
    FlatSum(frequencyDomain, v);
    assert SumIntensity(Above(frequencyDomain, 0.0)) == n * v;
    assert n * v / n == v;
    assert AverageIntensity(frequencyDomain) == v;
    FindFundamentalFrequencyPanics(frequencyDomain);
  }

  lemma {:induction false} FlatSum(buckets: seq<FrequencyBucket>, v: real)
    requires v > 0.0
    requires forall j :: 0 <= j < |buckets| ==> buckets[j].intensity == v
    ensures Above(buckets, 0.0) == buckets
    ensures SumIntensity(buckets) == |buckets| as real * v
  {
    if buckets != [] {
      var rest := buckets[1..];
      assert forall j :: 0 <= j < |rest| ==> rest[j].intensity == v by {
        assert forall j :: 0 <= j < |rest| ==> rest[j] == buckets[j + 1];
      }
      FlatSum(rest, v);
      var k := |rest| as real;
      assert |buckets| as real == k + 1.0;
      calc {
        SumIntensity(buckets);
        buckets[0].intensity + SumIntensity(rest);
        v + k * v;
        (k + 1.0) * v;
        |buckets| as real * v;
      }
      assert Above(buckets, 0.0) == [buckets[0]] + rest;
    }
  }

  /** On the buckets of fft, an estimate is the centre of one of them. */
  lemma EstimateIsBucketCentre(intensities: seq<real>, sampleRate: real)
    requires |intensities| > 0
    ensures var r := Fft(intensities, sampleRate);
      FindFundamentalFrequency(r).Returned? ==>
        exists k :: 0 <= k < |r| && FindFundamentalFrequency(r).hz == r[k].AveFreq() == (k as real + 0.5) * Resolution(sampleRate, |r|)
  {
    var r := Fft(intensities, sampleRate);
    FindFundamentalFrequencyReturnsACentre(r);
    if FindFundamentalFrequency(r).Returned? {
      var k :| IsFirstMax(r, Threshold(r), k) && FindFundamentalFrequency(r).hz == r[k].AveFreq();
      FftCentres(intensities, sampleRate, k);
    }
  }

  // ---------------------------------------------------------------------
  // find_fundamental_frequency_correlation

  /** Σ_{i < m} input[i] * input[i + k]: the inner loop's accumulator after
      m steps. */
  function LagSum(input: seq<real>, k: nat, m: nat): real
    requires m + k <= |input|
  {
    if m == 0 then 0.0 else LagSum(input, k, m - 1) + input[m - 1] * input[m - 1 + k]
  }

  /** The autocorrelation vector before peak removal: entry k is the lag-k
      sum over the n - k overlapping pairs. */
  function Correlation(input: seq<real>): (r: seq<real>)
    ensures |r| == |input|
  {
    seq(|input|, k requires 0 <= k < |input| => LagSum(input, k, |input| - k))
  }

  /** At lag 0 the signal is matched with itself: the sum is a sum of
      squares and never negative. */
  lemma {:induction false} EnergyIsNonNegative(input: seq<real>, m: nat)
    requires m <= |input|
    ensures LagSum(input, 0, m) >= 0.0
  {
    if m > 0 {
      EnergyIsNonNegative(input, m - 1);
      var x := input[m - 1];
      assert LagSum(input, 0, m) == LagSum(input, 0, m - 1) + x * x;
      assert x * x >= 0.0;
    }
  }

  /** The autocorrelation vector of a non-empty signal starts with its
      energy, the entry the removal loop starts clearing from. */
  lemma CorrelationStartsWithEnergy(input: seq<real>)
    requires |input| > 0
    ensures Correlation(input)[0] == LagSum(input, 0, |input|) >= 0.0
  {
    EnergyIsNonNegative(input, |input|);
  }

  /** The offset at which the removal loop breaks: the first offset m from
      `from` on with corr[m - 1] < corr[m], or n when there is none. */
  function FirstRise(corr: seq<real>, from: nat): (m: nat)
    requires 1 <= from <= |corr|
    ensures from <= m <= |corr|
    decreases |corr| - from
  {
    if from == |corr| then |corr|
    else if corr[from - 1] < corr[from] then from
    else FirstRise(corr, from + 1)
  }

  /** The first rise: no offset before it is a rise, and unless there is
      none it is one. */
  lemma {:induction false} FirstRiseSpec(corr: seq<real>, from: nat)
    requires 1 <= from <= |corr|
    ensures var m := FirstRise(corr, from);
      && from <= m <= |corr|
      && (forall o :: from <= o < m ==> corr[o - 1] >= corr[o])
      && (m < |corr| ==> corr[m - 1] < corr[m])
    decreases |corr| - from
  {
    if from < |corr| && !(corr[from - 1] < corr[from]) {
      FirstRiseSpec(corr, from + 1);
    }
  }

  /** The number of leading entries the removal loop zeroes: one fewer than
      the offset it breaks at. */
  function RemovedCount(corr: seq<real>): nat {
    if |corr| == 0 then 0 else FirstRise(corr, 1) - 1
  }

  /** The vector after the removal loop: the first RemovedCount entries are
      0.0 and the rest are as they were. */
  function PeakRemoved(corr: seq<real>): (r: seq<real>)
    ensures |r| == |corr|
  {
    var m := RemovedCount(corr);
    seq(|corr|, i requires 0 <= i < |corr| => if i < m then 0.0 else corr[i])
  }

  /** The fold that picks the peak, from (0, 0.0): an entry replaces the one
      held only when it is strictly larger. */
  function PeakFold(s: seq<real>, i: nat, xi: nat, xmag: real): nat
    requires i <= |s|
    decreases |s| - i
  {
    if i == |s| then xi
    else if s[i] > xmag then PeakFold(s, i + 1, i, s[i])
    else PeakFold(s, i + 1, xi, xmag)
  }

  function PeakIndex(s: seq<real>): nat {
    PeakFold(s, 0, 0, 0.0)
  }

  /** Reference definition: index k holds the first maximum, and it is
      positive. */
  ghost predicate IsPeak(s: seq<real>, k: int) {
    && 0 <= k < |s|
    && s[k] > 0.0
    && (forall j :: 0 <= j < |s| ==> s[j] <= s[k])
    && (forall j :: 0 <= j < k ==> s[j] < s[k])
  }

  /** The fold from position i holding (xi, xmag): it keeps xi when nothing
      after i exceeds xmag, and otherwise ends on the first maximum of the
      rest. */
  lemma {:induction false} PeakFoldSpec(s: seq<real>, i: nat, xi: nat, xmag: real)
    requires i <= |s|
    ensures (forall j :: i <= j < |s| ==> s[j] <= xmag) ==> PeakFold(s, i, xi, xmag) == xi
    ensures !(forall j :: i <= j < |s| ==> s[j] <= xmag) ==>
      var k := PeakFold(s, i, xi, xmag);
      && i <= k < |s| && s[k] > xmag
      && (forall j :: i <= j < |s| ==> s[j] <= s[k])
      && (forall j :: i <= j < k ==> s[j] < s[k])
    decreases |s| - i
  {
    if i < |s| {
      if s[i] > xmag {
        PeakFoldSpec(s, i + 1, i, s[i]);
      } else {
        PeakFoldSpec(s, i + 1, xi, xmag);
      }
    }
  }

  /** The peak is the first maximum when some entry is positive, and index 0
      when none is (including the empty vector). */
  lemma PeakIndexSpec(s: seq<real>)
    ensures (forall j :: 0 <= j < |s| ==> s[j] <= 0.0) ==> PeakIndex(s) == 0
    ensures (exists j :: 0 <= j < |s| && s[j] > 0.0) ==> IsPeak(s, PeakIndex(s))
  {
    PeakFoldSpec(s, 0, 0, 0.0);
  }

  /** The removal loop zeroes exactly the leading non-increasing run: every
      offset before RemovedCount is not a rise, every later entry is kept,
      and the loop stops early only at a rise. */
  lemma PeakRemovedSpec(corr: seq<real>)
    requires |corr| > 0
    ensures var m := RemovedCount(corr); var r := PeakRemoved(corr);
      && m < |corr|
      && (forall i :: 0 <= i < m ==> r[i] == 0.0)
      && (forall i :: m <= i < |corr| ==> r[i] == corr[i])
      && (forall o :: 1 <= o <= m ==> corr[o - 1] >= corr[o])
      && (m + 1 < |corr| ==> corr[m] < corr[m + 1])
  {
    FirstRiseSpec(corr, 1);
  }

  /** When an entry at or after the removed run is positive, the peak lies
      outside the zeroed run and is the first maximum of the kept entries. */
  lemma PeakAfterRemoval(corr: seq<real>, j: nat)
    requires RemovedCount(corr) <= j < |corr| && corr[j] > 0.0
    ensures var r := PeakRemoved(corr);
      && RemovedCount(corr) <= PeakIndex(r)
      && IsPeak(r, PeakIndex(r))
  {
    var r := PeakRemoved(corr);
    assert r[j] == corr[j];
    PeakIndexSpec(r);
  }

  /** find_fundamental_frequency_correlation up to its peak index: build the
      autocorrelation vector by pushing one lag sum per offset, zero the
      leading run in place up to the first rise, and fold to the first
      positive maximum. The frequency returned, sample_rate / peak_index, is
      not modelled. */
  method FindFundamentalFrequencyCorrelation(input: seq<real>) returns (peakIndex: nat)
    ensures peakIndex == PeakIndex(PeakRemoved(Correlation(input)))
  {
    var n := |input|;
    var correlation: seq<real> := [];
    for offset := 0 to n
      invariant correlation == Correlation(input)[..offset]
    {
      var c := 0.0;
      for i := 0 to n - offset
        invariant c == LagSum(input, offset, i)
      {
        var j := i + offset;
        c := c + input[i] * input[j];
      }
      correlation := correlation + [c];
    }
    assert correlation == Correlation(input);
    ghost var corr := correlation;
    // at offset 0 the signal matches itself; remove that peak
    var offset := 1;
    while offset < |correlation|
      invariant 1 <= offset && (|corr| > 0 ==> offset <= |corr|) && |correlation| == |corr|
      invariant |corr| > 0 ==> FirstRise(corr, 1) == FirstRise(corr, offset)
      invariant forall i :: 0 <= i < |corr| ==> correlation[i] == if i < offset - 1 then 0.0 else corr[i]
      decreases |correlation| - offset
    {
      if correlation[offset - 1] < correlation[offset] {
        break;
      }
      correlation := correlation[offset - 1 := 0.0];
      offset := offset + 1;
    }
    assert correlation == PeakRemoved(corr);
    peakIndex := PeakIndex(correlation);
  }
}
