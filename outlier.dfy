/**
 * `detect_outlier`: the Z-score test. A reading is an outlier when it lies
 * more than OUTLIER_THRESHOLD sample standard deviations from the mean of a
 * full window. With reals and no square root, |z| > 3 is stated as
 * (value - mean)^2 > 3^2 * variance, which is the same test whenever the
 * standard deviation is positive (see OutlierIsZScore).
 */
module Outlier {
  import opened Statistics
  import opened RollingWindow

  /** OUTLIER_THRESHOLD */
  const OutlierThreshold: real := 3.0

  /**
   * Fewer than Capacity samples: never an outlier. A zero standard deviation
   * makes the division fail; the failure is caught and the reading is not an
   * outlier.
   */
  function DetectOutlier(samples: seq<real>, value: real): (r: bool)
    ensures r ==> |samples| >= Capacity
  {
    if |samples| < Capacity then false
    else
      var avg := Mean(samples);
      var variance := Variance(samples);
      if variance == 0.0 then false
      else Sq(value - avg) > Sq(OutlierThreshold) * variance
  }

  /**
   * On a full window whose standard deviation `sd` is positive, the test is
   * exactly |(value - mean) / sd| > OUTLIER_THRESHOLD.
   */
  lemma OutlierIsZScore(samples: seq<real>, value: real, sd: real)
    requires |samples| >= Capacity
    requires sd > 0.0 && Sq(sd) == Variance(samples)
    ensures DetectOutlier(samples, value) <==> Abs((value - Mean(samples)) / sd) > OutlierThreshold
  {
    var d := value - Mean(samples);
    SqZero(sd);
    var a, t := Abs(d), OutlierThreshold * sd;
    SqAbs(d);
    assert Sq(t) == Sq(OutlierThreshold) * Sq(sd) by {
      SqIsProduct(t);
      SqIsProduct(OutlierThreshold);
      SqIsProduct(sd);
    }
    DivideAbs(d, sd);
    if a > t {
      SqMonotonic(a, t);
    } else if a < t {
      SqMonotonic(t, a);
    }
  }

  lemma DivideAbs(d: real, sd: real)
    requires sd > 0.0
    ensures Abs(d / sd) > OutlierThreshold <==> Abs(d) > OutlierThreshold * sd
  {
    var z := d / sd;
    var a := Abs(z);
    assert z * sd == d;
    assert a * sd == Abs(d) by {
      if z < 0.0 {
        MulLt(sd, z, 0.0);
        assert a * sd == -(z * sd);
      } else {
        MulLt(sd, 0.0, z);
      }
    }
    MulLt(sd, OutlierThreshold, a);
  }

  /**
   * A full window whose readings are all the same has no spread, and no
   * reading whatever is flagged against it.
   */
  lemma ZeroSpreadNeverOutlier(samples: seq<real>, value: real)
    requires |samples| >= Capacity
    requires forall i :: 0 <= i < |samples| ==> samples[i] == samples[0]
    ensures !DetectOutlier(samples, value)
  {
    ZeroVarianceIffConstant(samples);
  }

  /** A full window with spread flags the reading iff it is far from the mean. */
  lemma SpreadOutlier(samples: seq<real>, value: real)
    requires |samples| >= Capacity
    requires exists i :: 0 <= i < |samples| && samples[i] != samples[0]
    ensures DetectOutlier(samples, value) <==>
            Sq(value - Mean(samples)) > Sq(OutlierThreshold) * Variance(samples)
  {
    ZeroVarianceIffConstant(samples);
  }

  /** The readings a, a + 1, ..., a + (n - 1). */
  function Ramp(a: real, n: nat): (r: seq<real>)
    ensures |r| == n
    decreases n
  {
    if n == 0 then [] else [a] + Ramp(a + 1.0, n - 1)
  }

  lemma {:induction false} RampAt(a: real, n: nat, i: nat)
    requires i < n
    ensures Ramp(a, n)[i] == a + i as real
    decreases n
  {
    if i > 0 {
      RampAt(a + 1.0, n - 1, i - 1);
    }
  }

  lemma {:induction false} RampSum(a: real, n: nat)
    ensures Sum(Ramp(a, n)) == (n as real) * a + (n as real) * ((n as real) - 1.0) / 2.0
    decreases n
  {
    if n > 0 {
      RampSum(a + 1.0, n - 1);
      var k := (n - 1) as real;
      assert Sum(Ramp(a, n)) == a + (k * (a + 1.0) + k * (k - 1.0) / 2.0);
    }
  }

  /** The sum of (d + i)² over i = 0 .. k - 1, in closed form. */
  function SquareSum(d: real, k: real): real
  {
    k * Sq(d) + d * k * (k - 1.0) + k * (k - 1.0) * (2.0 * k - 1.0) / 6.0
  }

  lemma {:induction false} RampSumSqDev(a: real, n: nat, m: real)
    ensures SumSqDev(Ramp(a, n), m) == SquareSum(a - m, n as real)
    decreases n
  {
    if n > 0 {
      RampSumSqDev(a + 1.0, n - 1, m);
      assert SumSqDev(Ramp(a, n), m) == Sq(a - m) + SumSqDev(Ramp(a + 1.0, n - 1), m);
      SquareSumStep(a - m, a + 1.0 - m, (n - 1) as real, n as real);
    }
  }

  /** Peeling the first square off the closed form. */
  lemma SquareSumStep(d: real, e: real, k: real, n: real)
    requires e == d + 1.0 && n == k + 1.0
    ensures Sq(d) + SquareSum(e, k) == SquareSum(d, n)
  {
    SqIsProduct(d);
    SqIsProduct(e);
    var dd, dk, kk := d * d, d * k, k * k;
    var kkk := kk * k;
    assert e * e == dd + 2.0 * d + 1.0;
    assert k * (e * e) == k * dd + 2.0 * dk + k;
    assert e * k * (k - 1.0) == d * kk - dk + kk - k;
    assert k * (k - 1.0) * (2.0 * k - 1.0) == 2.0 * kkk - 3.0 * kk + k;
    assert n * (n - 1.0) * (2.0 * n - 1.0) == 2.0 * kkk + 3.0 * kk + k;
    assert d * n * (n - 1.0) == d * kk + dk;
    assert n * dd == k * dd + dd;
  }

  /** The mean of a ramp is its midpoint. */
  lemma RampMean(a: real, n: nat)
    requires n > 0
    ensures Mean(Ramp(a, n)) == a + ((n as real) - 1.0) / 2.0
  {
    var k, c := n as real, a + ((n as real) - 1.0) / 2.0;
    RampSum(a, n);
    assert Sum(Ramp(a, n)) == k * c;
    DivCancel(c, k);
  }

  /** The sample variance of a ramp of n readings is n(n + 1)/12. */
  lemma RampVariance(a: real, n: nat)
    requires n >= 2
    ensures Variance(Ramp(a, n)) == (n as real) * ((n as real) + 1.0) / 12.0
  {
    var s, k := Ramp(a, n), n as real;
    RampMean(a, n);
    RampSquares(a, n, a + (k - 1.0) / 2.0);
    VarianceOf(s, a + (k - 1.0) / 2.0, k * (k + 1.0) / 12.0);
  }

  /** The squared deviations of a ramp from its midpoint `m`. */
  lemma RampSquares(a: real, n: nat, m: real)
    requires n >= 2 && m == a + ((n as real) - 1.0) / 2.0
    ensures SumSqDev(Ramp(a, n), m) == ((n - 1) as real) * ((n as real) * ((n as real) + 1.0) / 12.0)
  {
    RampSumSqDev(a, n, m);
    CenteredSquareSum(a - m, n as real);
  }

  /** The closed form taken about the midpoint of k readings. */
  lemma CenteredSquareSum(h: real, k: real)
    requires h == (1.0 - k) / 2.0
    ensures SquareSum(h, k) == (k - 1.0) * (k * (k + 1.0) / 12.0)
  {
    SqIsProduct(h);
    var kk := k * k;
    var kkk := kk * k;
    assert h * h == (kk - 2.0 * k + 1.0) / 4.0;
    assert k * (h * h) == (kkk - 2.0 * kk + k) / 4.0;
    assert h * k * (k - 1.0) == -(kkk - 2.0 * kk + k) / 2.0;
    assert k * (k - 1.0) * (2.0 * k - 1.0) == 2.0 * kkk - 3.0 * kk + k;
    assert (k - 1.0) * (k * (k + 1.0) / 12.0) == (kkk - k) / 12.0;
  }

  /** A window whose i-th reading is a + i is the ramp from a. */
  lemma RampOf(a: real, samples: seq<real>)
    requires forall i :: 0 <= i < |samples| ==> samples[i] == a + i as real
    ensures samples == Ramp(a, |samples|)
  {
    var s := Ramp(a, |samples|);
    forall i | 0 <= i < |samples|
      ensures s[i] == samples[i]
    {
      RampAt(a, |samples|, i);
    }
  }

  /** A window of readings a, a + 1, ..., a + (n - 1): its mean and its variance. */
  lemma RampStatistics(a: real, samples: seq<real>)
    requires |samples| >= 2
    requires forall i :: 0 <= i < |samples| ==> samples[i] == a + i as real
    ensures var n := |samples| as real;
            Mean(samples) == a + (n - 1.0) / 2.0 && Variance(samples) == n * (n + 1.0) / 12.0
  {
    RampOf(a, samples);
    RampMean(a, |samples|);
    RampVariance(a, |samples|);
  }

  /** The unit test's window 20.0, 21.0, ..., 119.0 does not flag the reading 25.0. */
  lemma RampWindowNotOutlier(samples: seq<real>)
    requires |samples| == Capacity
    requires forall i :: 0 <= i < |samples| ==> samples[i] == 20.0 + i as real
    ensures !DetectOutlier(samples, 25.0)
  {
    RampStatistics(20.0, samples);
    SqIsProduct(25.0 - 69.5);
    SqIsProduct(OutlierThreshold);
  }
}
