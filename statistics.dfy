/**
 * The sample statistics the decision engine takes from Python's `statistics`
 * module: the arithmetic mean and the sample variance (denominator n - 1),
 * whose square root is `stdev`. Temperatures are exact reals here.
 */
module Statistics {

  function Abs(x: real): (r: real)
    ensures r >= 0.0 && (r == x || r == -x)
  {
    if x < 0.0 then -x else x
  }

  /** `x` to the power `n`. */
  function Power(x: real, n: nat): real
  {
    if n == 0 then 1.0 else x * Power(x, n - 1)
  }

  /** The square, written as a power so that it is unfolded only where a proof asks for it. */
  function Sq(x: real): (r: real)
    ensures r >= 0.0
  {
    SqIsProduct(x);
    Power(x, 2)
  }

  /** Sum of the samples, from the first to the last. */
  function Sum(s: seq<real>): real
  {
    if s == [] then 0.0 else s[0] + Sum(s[1..])
  }

  /**
   * `statistics.mean`, only ever applied to a non-empty window: it lies
   * between the smallest and the largest sample.
   */
  function Mean(s: seq<real>): (r: real)
    requires |s| > 0
    ensures exists i :: 0 <= i < |s| && s[i] <= r
    ensures exists j :: 0 <= j < |s| && r <= s[j]
  {
    MeanAbove(s);
    MeanBelow(s);
    Sum(s) / (|s| as real)
  }

  /** Some sample is at most the mean. */
  lemma MeanAbove(s: seq<real>)
    requires |s| > 0
    ensures exists i :: 0 <= i < |s| && s[i] <= Sum(s) / (|s| as real)
  {
    var i := SumAtLeast(s);
    DivBelow(s[i], Sum(s), |s| as real);
  }

  /** Some sample is at least the mean. */
  lemma MeanBelow(s: seq<real>)
    requires |s| > 0
    ensures exists j :: 0 <= j < |s| && Sum(s) / (|s| as real) <= s[j]
  {
    var j := SumAtMost(s);
    DivAbove(s[j], Sum(s), |s| as real);
  }

  /** A sample which, taken |s| times, is at most the sum. */
  lemma {:induction false} SumAtLeast(s: seq<real>) returns (i: nat)
    requires |s| > 0
    ensures i < |s| && (|s| as real) * s[i] <= Sum(s)
  {
    if |s| == 1 {
      assert s[1..] == [];
      i := 0;
    } else {
      var t := s[1..];
      var j := SumAtLeast(t);
      var k := |t| as real;
      assert Sum(s) == s[0] + Sum(t) && |s| as real == k + 1.0;
      if s[0] <= t[j] {
        var p, q := k * s[0], k * t[j];
        assert p <= q by {
          if s[0] < t[j] {
            MulLt(k, s[0], t[j]);
          } else {
            assert s[0] == t[j];
          }
        }
        assert (k + 1.0) * s[0] == s[0] + p;
        i := 0;
      } else {
        var q := k * t[j];
        assert (k + 1.0) * t[j] == t[j] + q;
        assert s[j + 1] == t[j];
        i := j + 1;
      }
    }
  }

  /** A sample which, taken |s| times, is at least the sum. */
  lemma {:induction false} SumAtMost(s: seq<real>) returns (j: nat)
    requires |s| > 0
    ensures j < |s| && Sum(s) <= (|s| as real) * s[j]
  {
    if |s| == 1 {
      assert s[1..] == [];
      j := 0;
    } else {
      var t := s[1..];
      var i := SumAtMost(t);
      var k := |t| as real;
      assert Sum(s) == s[0] + Sum(t) && |s| as real == k + 1.0;
      if t[i] <= s[0] {
        var p, q := k * s[0], k * t[i];
        assert q <= p by {
          if t[i] < s[0] {
            MulLt(k, t[i], s[0]);
          } else {
            assert t[i] == s[0];
          }
        }
        assert (k + 1.0) * s[0] == s[0] + p;
        j := 0;
      } else {
        var q := k * t[i];
        assert (k + 1.0) * t[i] == t[i] + q;
        assert s[i + 1] == t[i];
        j := i + 1;
      }
    }
  }

  /** Dividing both sides of n * a <= b by a positive n. */
  lemma DivBelow(a: real, b: real, n: real)
    requires n > 0.0 && n * a <= b
    ensures a <= b / n
  {
    var q := b / n;
    if q < a {
      MulLt(n, q, a);
    }
  }

  /** Multiplying by a positive n and dividing by it again gives back `a`. */
  lemma DivCancel(a: real, n: real)
    requires n > 0.0
    ensures (n * a) / n == a
  {
    DivBelow(a, n * a, n);
    DivAbove(a, n * a, n);
  }

  /** Dividing both sides of b <= n * a by a positive n. */
  lemma DivAbove(a: real, b: real, n: real)
    requires n > 0.0 && b <= n * a
    ensures b / n <= a
  {
    var q := b / n;
    if a < q {
      MulLt(n, a, q);
    }
  }

  /** Sum of squared deviations of the samples from `m`; zero only when no sample deviates. */
  function SumSqDev(s: seq<real>, m: real): (r: real)
    ensures r >= 0.0
    ensures r == 0.0 ==> forall i :: 0 <= i < |s| ==> s[i] == m
  {
    if s == [] then 0.0
    else
      SqZero(s[0] - m);
      Sq(s[0] - m) + SumSqDev(s[1..], m)
  }

  /** `statistics.variance`, the square of `statistics.stdev`; needs two samples. */
  function Variance(s: seq<real>): (r: real)
    requires |s| >= 2
    ensures r >= 0.0
  {
    SumSqDev(s, Mean(s)) / ((|s| - 1) as real)
  }

  /** The variance is `v` when the squared deviations from the mean add up to (n - 1) * v. */
  lemma VarianceOf(s: seq<real>, m: real, v: real)
    requires |s| >= 2 && Mean(s) == m
    requires SumSqDev(s, m) == ((|s| - 1) as real) * v
    ensures Variance(s) == v
  {
    DivCancel(v, (|s| - 1) as real);
  }

  /** The spread is zero exactly when every sample is the same. */
  lemma ZeroVarianceIffConstant(s: seq<real>)
    requires |s| >= 2
    ensures Variance(s) == 0.0 <==> forall i :: 0 <= i < |s| ==> s[i] == s[0]
  {
    if forall i :: 0 <= i < |s| ==> s[i] == s[0] {
      ConstantMean(s, s[0]);
      ConstantSumSqDev(s, s[0]);
    }
  }

  /** A window whose samples all equal `c` sums to |s| * c ... */
  lemma {:induction false} ConstantSum(s: seq<real>, c: real)
    requires forall i :: 0 <= i < |s| ==> s[i] == c
    ensures Sum(s) == (|s| as real) * c
  {
    if s != [] {
      ConstantSum(s[1..], c);
    }
  }

  /** ... so its mean is `c` ... */
  lemma ConstantMean(s: seq<real>, c: real)
    requires |s| > 0
    requires forall i :: 0 <= i < |s| ==> s[i] == c
    ensures Mean(s) == c
  {
    ConstantSum(s, c);
  }

  /** ... and no sample deviates from `c`. */
  lemma {:induction false} ConstantSumSqDev(s: seq<real>, c: real)
    requires forall i :: 0 <= i < |s| ==> s[i] == c
    ensures SumSqDev(s, c) == 0.0
  {
    if s != [] {
      ConstantSumSqDev(s[1..], c);
    }
  }

  // Facts about squares and products of reals, each proved one step at a time.

  /** Squaring is strictly increasing on the non-negative reals. */
  lemma SqMonotonic(a: real, b: real)
    requires 0.0 <= b < a
    ensures Sq(b) < Sq(a)
  {
    SqIsProduct(a);
    SqIsProduct(b);
    var p, q, r := b * b, b * a, a * a;
    assert p <= q;
    assert q < r;
  }

  lemma SqAbs(x: real)
    ensures Sq(Abs(x)) == Sq(x)
  {
    SqIsProduct(x);
    SqIsProduct(Abs(x));
  }

  lemma SqIsProduct(x: real)
    ensures Power(x, 2) == x * x
  {
    assert Power(x, 1) == x * Power(x, 0);
  }

  /** A square is zero exactly at zero. */
  lemma SqZero(x: real)
    ensures Sq(x) == 0.0 <==> x == 0.0
  {
    if x != 0.0 {
      SqMonotonic(Abs(x), 0.0);
      SqAbs(x);
    }
  }

  lemma MulLtOne(k: real, x: real, y: real)
    requires k > 0.0 && x < y
    ensures x * k < y * k
  {
  }

  /** Multiplying by a positive factor keeps the order of two reals. */
  lemma MulLt(k: real, x: real, y: real)
    requires k > 0.0
    ensures x < y <==> x * k < y * k
  {
    if x < y {
      MulLtOne(k, x, y);
    } else if y < x {
      MulLtOne(k, y, x);
    }
  }
}
