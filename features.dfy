/** Feature extraction over a batch of raw readings (`calculate_features` in
    firebase_service.py). Arithmetic is exact over `real`; the square root is
    the parameter `sqrt`, about which nothing is assumed. */
module Features {
  import opened Models

  /** The `ValueError` raised for an empty batch. */
  datatype FeatureError = EmptyBatch

  datatype Result<+T> = Ok(value: T) | Err(error: FeatureError)

  /** Sum of a sequence of reals. */
  function Sum(xs: seq<real>): real {
    if xs == [] then 0.0 else xs[0] + Sum(xs[1..])
  }

  /** Arithmetic mean (`np.mean`) of a non-empty sequence. */
  function Mean(xs: seq<real>): real
    requires |xs| > 0
  {
    Sum(xs) / (|xs| as real)
  }

  /** Sum of the squared distances of the elements from `m`. */
  function SumSquaredDeviations(xs: seq<real>, m: real): real {
    if xs == [] then 0.0 else (xs[0] - m) * (xs[0] - m) + SumSquaredDeviations(xs[1..], m)
  }

  /** Population variance (`np.var`, which `np.std` takes the root of): the
      squared deviations from the mean are averaged over the count, not over
      the count less one. */
  function PopVariance(xs: seq<real>): real
    requires |xs| > 0
  {
    SumSquaredDeviations(xs, Mean(xs)) / (|xs| as real)
  }

  /** Vector magnitude `sqrt(x^2 + y^2 + z^2)` of one reading's acceleration. */
  function Magnitude(sqrt: real -> real, r: RawSensorReading): real {
    sqrt(r.accelX * r.accelX + r.accelY * r.accelY + r.accelZ * r.accelZ)
  }

  /** One magnitude per reading, in batch order (`accel_rms_list`). */
  function Magnitudes(sqrt: real -> real, rs: seq<RawSensorReading>): (r: seq<real>)
    ensures |r| == |rs|
    ensures forall i :: 0 <= i < |rs| ==> r[i] == Magnitude(sqrt, rs[i])
  {
    if rs == [] then [] else [Magnitude(sqrt, rs[0])] + Magnitudes(sqrt, rs[1..])
  }

  /** One pulse per reading, in batch order (`pulse_list`). */
  function Pulses(rs: seq<RawSensorReading>): (r: seq<real>)
    ensures |r| == |rs|
    ensures forall i :: 0 <= i < |rs| ==> r[i] == rs[i].pulseRaw as real
  {
    if rs == [] then [] else [rs[0].pulseRaw as real] + Pulses(rs[1..])
  }

  /** `calculate_features`: an error exactly for an empty batch; otherwise the
      window starts at the first reading, the acceleration feature is the
      average magnitude, the pulse average is the average pulse and the pulse
      deviation is the square root of the population variance of the pulses. */
  function CalculateFeatures(sqrt: real -> real, rs: seq<RawSensorReading>): (r: Result<ProcessedFeatures>)
    ensures r.Err? <==> rs == []
    ensures r.Err? ==> r.error == EmptyBatch
    ensures r.Ok? ==> r.value.timeWindowStart == rs[0].timestampMs
    ensures r.Ok? ==> r.value.accelRmsMean * (|rs| as real) == Sum(Magnitudes(sqrt, rs))
    ensures r.Ok? ==> r.value.pulseRateAvg * (|rs| as real) == Sum(Pulses(rs))
    ensures r.Ok? ==> r.value.pulseRateStd == sqrt(PopVariance(Pulses(rs)))
  {
    if rs == [] then Err(EmptyBatch)
    else
      var ps := Pulses(rs);
      Ok(ProcessedFeatures(
        rs[0].timestampMs,
        Mean(Magnitudes(sqrt, rs)),
        Mean(ps),
        sqrt(PopVariance(ps))))
  }

  /** The sum of `n` copies of `c` is `n * c`. */
  lemma {:induction false} SumOfConstant(xs: seq<real>, c: real)
    requires forall i :: 0 <= i < |xs| ==> xs[i] == c
    ensures Sum(xs) == (|xs| as real) * c
  {
    if xs != [] {
      SumOfConstant(xs[1..], c);
    }
  }

  /** The mean of equal values is that value. */
  lemma MeanOfConstant(xs: seq<real>, c: real)
    requires |xs| > 0
    requires forall i :: 0 <= i < |xs| ==> xs[i] == c
    ensures Mean(xs) == c
  {
    SumOfConstant(xs, c);
  }

  /** A sum of non-negative terms is non-negative. */
  lemma {:induction false} SumNonNegative(xs: seq<real>)
    requires forall i :: 0 <= i < |xs| ==> xs[i] >= 0.0
    ensures Sum(xs) >= 0.0
  {
    if xs != [] {
      SumNonNegative(xs[1..]);
    }
  }

  /** Bounds on the elements bound the sum by `n` times themselves. */
  lemma {:induction false} SumBetween(xs: seq<real>, lo: real, hi: real)
    requires forall i :: 0 <= i < |xs| ==> lo <= xs[i] <= hi
    ensures (|xs| as real) * lo <= Sum(xs) <= (|xs| as real) * hi
  {
    if xs != [] {
      SumBetween(xs[1..], lo, hi);
    }
  }

  /** The mean lies between any lower and upper bound of the elements. */
  lemma MeanBetween(xs: seq<real>, lo: real, hi: real)
    requires |xs| > 0
    requires forall i :: 0 <= i < |xs| ==> lo <= xs[i] <= hi
    ensures lo <= Mean(xs) <= hi
  {
    SumBetween(xs, lo, hi);
    var n := |xs| as real;
    assert Mean(xs) * n == Sum(xs);
  }

  /** Squared deviations sum to a non-negative value. */
  lemma {:induction false} SumSquaredDeviationsNonNegative(xs: seq<real>, m: real)
    ensures SumSquaredDeviations(xs, m) >= 0.0
  {
    if xs != [] {
      SumSquaredDeviationsNonNegative(xs[1..], m);
      SquareNonNegative(xs[0] - m);
    }
  }

  lemma SquareNonNegative(e: real)
    ensures e * e >= 0.0
  {
  }

  /** The variance is never negative. */
  lemma PopVarianceNonNegative(xs: seq<real>)
    requires |xs| > 0
    ensures PopVariance(xs) >= 0.0
  {
    SumSquaredDeviationsNonNegative(xs, Mean(xs));
  }

  /** Values all equal to `c` have no deviation from `c`. */
  lemma {:induction false} SumSquaredDeviationsOfConstant(xs: seq<real>, c: real)
    requires forall i :: 0 <= i < |xs| ==> xs[i] == c
    ensures SumSquaredDeviations(xs, c) == 0.0
  {
    if xs != [] {
      SumSquaredDeviationsOfConstant(xs[1..], c);
    }
  }

  /** Equal values have variance zero. */
  lemma PopVarianceOfConstant(xs: seq<real>, c: real)
    requires |xs| > 0
    requires forall i :: 0 <= i < |xs| ==> xs[i] == c
    ensures PopVariance(xs) == 0.0
  {
    MeanOfConstant(xs, c);
    SumSquaredDeviationsOfConstant(xs, c);
  }

  /** Expanding the squares: the squared deviations from `m` sum to the sum
      of squares less `2 m` times the sum plus `n m^2`. */
  lemma {:induction false} ExpandSquaredDeviations(xs: seq<real>, m: real)
    ensures SumSquaredDeviations(xs, m)
         == SumSquaredDeviations(xs, 0.0) - 2.0 * m * Sum(xs) + (|xs| as real) * (m * m)
  {
    if xs != [] {
      var rest := xs[1..];
      ExpandSquaredDeviations(rest, m);
      var x := xs[0];
      assert (x - m) * (x - m) == (x - 0.0) * (x - 0.0) - 2.0 * m * x + m * m;
      assert 2.0 * m * Sum(xs) == 2.0 * m * x + 2.0 * m * Sum(rest);
      assert (|xs| as real) * (m * m) == (|rest| as real) * (m * m) + m * m;
    }
  }

  /** At the mean the cross term cancels: the squared deviations sum to the
      sum of squares less `n m^2`. */
  lemma {:induction false} SquaredDeviationsAtMean(xs: seq<real>, m: real)
    requires m * (|xs| as real) == Sum(xs)
    ensures SumSquaredDeviations(xs, m) == SumSquaredDeviations(xs, 0.0) - (|xs| as real) * (m * m)
  {
    ExpandSquaredDeviations(xs, m);
    CrossTerm(m, |xs| as real, Sum(xs));
  }

  lemma CrossTerm(m: real, n: real, s: real)
    requires m * n == s
    ensures 2.0 * m * s == 2.0 * n * (m * m)
  {
  }

  lemma DivideOut(sd: real, s2: real, n: real, m: real)
    requires n > 0.0 && sd == s2 - n * (m * m)
    ensures sd / n == s2 / n - m * m
  {
    assert sd / n == s2 / n - (n * (m * m)) / n;
  }

  /** Averaged over the count, the squared deviations from the mean `m` are
      the average square less `m^2`. */
  lemma {:induction false} VarianceAboutMean(xs: seq<real>, m: real)
    requires |xs| > 0 && m * (|xs| as real) == Sum(xs)
    ensures SumSquaredDeviations(xs, m) / (|xs| as real)
         == SumSquaredDeviations(xs, 0.0) / (|xs| as real) - m * m
  {
    assert SumSquaredDeviations(xs, m) == SumSquaredDeviations(xs, 0.0) - (|xs| as real) * (m * m) by {
      SquaredDeviationsAtMean(xs, m);
    }
    DivideOut(SumSquaredDeviations(xs, m), SumSquaredDeviations(xs, 0.0), |xs| as real, m);
  }

  /** The mean is the one value that, times the count, gives the sum. */
  lemma MeanCharacterized(xs: seq<real>, m: real)
    requires |xs| > 0
    ensures m == Mean(xs) <==> m * (|xs| as real) == Sum(xs)
  {
  }

  /** The population variance equals the mean of the squares less the square
      of the mean, an independent definition of the same statistic. */
  lemma {:induction false} PopVarianceAsMeanOfSquares(xs: seq<real>, m: real)
    requires |xs| > 0 && m == Mean(xs)
    ensures PopVariance(xs) == SumSquaredDeviations(xs, 0.0) / (|xs| as real) - m * m
  {
    MeanCharacterized(xs, m);
    VarianceAboutMean(xs, m);
  }

  /** A window of identical readings: the acceleration feature is that
      reading's magnitude, the pulse average is its pulse and the deviation
      is the square root of zero. */
  lemma ConstantWindow(sqrt: real -> real, rs: seq<RawSensorReading>)
    requires |rs| > 0
    requires forall i :: 0 <= i < |rs| ==> rs[i] == rs[0]
    ensures CalculateFeatures(sqrt, rs).Ok?
    ensures CalculateFeatures(sqrt, rs).value.accelRmsMean == Magnitude(sqrt, rs[0])
    ensures CalculateFeatures(sqrt, rs).value.pulseRateAvg == rs[0].pulseRaw as real
    ensures CalculateFeatures(sqrt, rs).value.pulseRateStd == sqrt(0.0)
  {
    MeanOfConstant(Magnitudes(sqrt, rs), Magnitude(sqrt, rs[0]));
    MeanOfConstant(Pulses(rs), rs[0].pulseRaw as real);
    PopVarianceOfConstant(Pulses(rs), rs[0].pulseRaw as real);
  }

  /** The pulse average lies between the smallest and the largest pulse. */
  lemma PulseAverageInRange(sqrt: real -> real, rs: seq<RawSensorReading>, lo: int, hi: int)
    requires |rs| > 0
    requires forall i :: 0 <= i < |rs| ==> lo <= rs[i].pulseRaw <= hi
    ensures CalculateFeatures(sqrt, rs).Ok?
    ensures lo as real <= CalculateFeatures(sqrt, rs).value.pulseRateAvg <= hi as real
  {
    MeanBetween(Pulses(rs), lo as real, hi as real);
  }

  /** The pulses 110, 120, 130, 140, 115 have average 123 and population
      variance 116 (a deviation of about 10.77). */
  lemma ExamplePulseStatistics(xs: seq<real>)
    requires xs == [110.0, 120.0, 130.0, 140.0, 115.0]
    ensures Mean(xs) == 123.0
    ensures PopVariance(xs) == 116.0
  {
    assert Sum(xs) == 615.0 by {
      assert Sum(xs[4..]) == 115.0;
      assert Sum(xs[3..]) == 255.0;
      assert Sum(xs[2..]) == 385.0;
      assert Sum(xs[1..]) == 505.0;
    }
    assert SumSquaredDeviations(xs, 123.0) == 580.0 by {
      assert SumSquaredDeviations(xs[4..], 123.0) == 64.0;
      assert SumSquaredDeviations(xs[3..], 123.0) == 353.0;
      assert SumSquaredDeviations(xs[2..], 123.0) == 402.0;
      assert SumSquaredDeviations(xs[1..], 123.0) == 411.0;
    }
  }
}
