/** Population statistics of one basin's history of a signal, and the standard
    score (z-score) _z_by_basin computes from them. Python's std(ddof=0) needs a
    square root, which is a parameter here: `sqrt` stands for any function that
    returns the non-negative square root of a non-negative real. */
module Stats {
  import opened Wrappers

  function Sum(xs: seq<real>): real {
    if xs == [] then 0.0 else Sum(xs[..|xs| - 1]) + xs[|xs| - 1]
  }

  function Mean(xs: seq<real>): real
    requires |xs| > 0
  {
    Sum(xs) / |xs| as real
  }

  /** Sum of squared deviations of xs from m. */
  function SumSqDev(xs: seq<real>, m: real): real {
    if xs == [] then 0.0
    else SumSqDev(xs[..|xs| - 1], m) + Sq(xs[|xs| - 1] - m)
  }

  /** Population variance: squared deviations divided by n, not n - 1 (ddof=0). */
  function Variance(xs: seq<real>): real
    requires |xs| > 0
  {
    SumSqDev(xs, Mean(xs)) / |xs| as real
  }

  predicate AllEqual(xs: seq<real>) {
    forall i, j :: 0 <= i < |xs| && 0 <= j < |xs| ==> xs[i] == xs[j]
  }

  ghost predicate IsSqrt(sqrt: real -> real) {
    forall v :: 0.0 <= v ==> 0.0 <= sqrt(v) && Sq(sqrt(v)) == v
  }

  /** The standard score of x against the history xs: missing when x is missing,
      when the history is empty (the standard deviation is NaN) or when the standard
      deviation is not positive. */
  function ZScore(xs: seq<real>, x: Option<real>, sqrt: real -> real): Option<real> {
    if |xs| == 0 then None
    else
      var sd := sqrt(Variance(xs));
      if sd > 0.0 && x.Some? then Some((x.value - Mean(xs)) / sd) else None
  }

  /** x squared; kept as a function so that facts about a square carry over
      between lemmas by congruence. */
  function Sq(x: real): real {
    x * x
  }

  lemma SquarePositive(d: real)
    requires d > 0.0
    ensures Sq(d) > 0.0
  {
    calc {
      Sq(d);
      == d * d;
      > 0.0 * d;
      == 0.0;
    }
  }

  lemma Square(d: real)
    ensures Sq(d) >= 0.0
    ensures d != 0.0 ==> Sq(d) > 0.0
    ensures d == 0.0 ==> Sq(d) == 0.0
  {
    if d > 0.0 {
      SquarePositive(d);
    } else if d < 0.0 {
      SquarePositive(-d);
      assert Sq(-d) == Sq(d);
    }
  }

  lemma Cancel(a: real, b: real, k: real)
    requires k != 0.0 && a * k == b * k
    ensures a == b
  {
    assert (a - b) * k == a * k - b * k;
  }

  lemma DivMul(a: real, n: real)
    requires n != 0.0
    ensures (a / n) * n == a
  {
  }

  lemma {:induction false} SumSqDevNonNegative(xs: seq<real>, m: real)
    ensures SumSqDev(xs, m) >= 0.0
  {
    if xs != [] {
      SumSqDevNonNegative(xs[..|xs| - 1], m);
      Square(xs[|xs| - 1] - m);
    }
  }

  lemma {:induction false} SumSqDevPositive(xs: seq<real>, m: real, i: int)
    requires 0 <= i < |xs| && xs[i] != m
    ensures SumSqDev(xs, m) > 0.0
  {
    var init := xs[..|xs| - 1];
    SumSqDevNonNegative(init, m);
    Square(xs[|xs| - 1] - m);
    if i < |xs| - 1 {
      assert init[i] == xs[i];
      SumSqDevPositive(init, m, i);
    }
  }

  lemma {:induction false} SumSqDevEqual(xs: seq<real>, m: real)
    requires forall i :: 0 <= i < |xs| ==> xs[i] == m
    ensures SumSqDev(xs, m) == 0.0
  {
    if xs != [] {
      var init := xs[..|xs| - 1];
      assert forall i :: 0 <= i < |init| ==> init[i] == m;
      SumSqDevEqual(init, m);
      Square(xs[|xs| - 1] - m);
    }
  }

  lemma SumSqDevZero(xs: seq<real>, m: real)
    ensures SumSqDev(xs, m) == 0.0 <==> forall i :: 0 <= i < |xs| ==> xs[i] == m
  {
    if forall i :: 0 <= i < |xs| ==> xs[i] == m {
      SumSqDevEqual(xs, m);
    } else {
      var i :| 0 <= i < |xs| && xs[i] != m;
      SumSqDevPositive(xs, m, i);
    }
  }

  lemma {:induction false} SumConstant(xs: seq<real>, c: real)
    requires forall i :: 0 <= i < |xs| ==> xs[i] == c
    ensures Sum(xs) == |xs| as real * c
  {
    if xs != [] {
      var init := xs[..|xs| - 1];
      assert forall i :: 0 <= i < |init| ==> init[i] == xs[i];
      SumConstant(init, c);
    }
  }

  /** The population variance is zero exactly when every value equals every other;
      otherwise it is positive. */
  lemma VarianceZeroIff(xs: seq<real>)
    requires |xs| > 0
    ensures Variance(xs) >= 0.0
    ensures Variance(xs) == 0.0 <==> AllEqual(xs)
  {
    var n := |xs| as real;
    var m := Mean(xs);
    var s := SumSqDev(xs, m);
    SumSqDevNonNegative(xs, m);
    assert Variance(xs) * n == s;
    SumSqDevZero(xs, m);
    if AllEqual(xs) {
      SumConstant(xs, xs[0]);
      assert m == xs[0];
      assert s == 0.0;
    }
  }

  /** With a true square root, the standard deviation is positive exactly when the
      history has two different values. */
  lemma SqrtPositive(sqrt: real -> real, v: real)
    requires IsSqrt(sqrt) && v >= 0.0
    ensures sqrt(v) >= 0.0
    ensures v > 0.0 ==> sqrt(v) > 0.0
    ensures v == 0.0 ==> sqrt(v) == 0.0
  {
    var r := sqrt(v);
    assert r >= 0.0 && Sq(r) == v;
    Square(r);
  }

  /** A z-score is present exactly when the value is present and the basin's
      history of the signal is not constant; it is never coerced to 0. */
  lemma ZScorePresentIff(xs: seq<real>, x: Option<real>, sqrt: real -> real)
    requires IsSqrt(sqrt)
    ensures ZScore(xs, x, sqrt).Some? <==> x.Some? && |xs| > 0 && !AllEqual(xs)
  {
    if |xs| > 0 {
      VarianceZeroIff(xs);
      SqrtPositive(sqrt, Variance(xs));
    }
  }

  /** (x - c) / d for every x in xs. */
  function Standardise(xs: seq<real>, c: real, d: real): (zs: seq<real>)
    requires d != 0.0
    ensures |zs| == |xs|
  {
    if xs == [] then [] else Standardise(xs[..|xs| - 1], c, d) + [(xs[|xs| - 1] - c) / d]
  }

  /** The deviations of xs from c, added up. */
  function SumDev(xs: seq<real>, c: real): real {
    if xs == [] then 0.0 else SumDev(xs[..|xs| - 1], c) + (xs[|xs| - 1] - c)
  }

  /** The deviations of a history from its own mean add up to zero. */
  lemma {:induction false} SumDevMean(xs: seq<real>, c: real)
    ensures SumDev(xs, c) == Sum(xs) - |xs| as real * c
  {
    if xs != [] {
      SumDevMean(xs[..|xs| - 1], c);
      DevStep(SumDev(xs[..|xs| - 1], c), Sum(xs[..|xs| - 1]), xs[|xs| - 1], (|xs| - 1) as real, c);
    }
  }

  lemma DevStep(s0: real, t0: real, x: real, k: real, c: real)
    requires s0 == t0 - k * c
    ensures s0 + (x - c) == (t0 + x) - (k + 1.0) * c
  {
  }

  /** The scores added up are the deviations added up, divided by d. */
  lemma {:induction false} SumStandardise(xs: seq<real>, c: real, d: real)
    requires d != 0.0
    ensures Sum(Standardise(xs, c, d)) == SumDev(xs, c) / d
  {
    if xs != [] {
      var init := xs[..|xs| - 1];
      SumStandardise(init, c, d);
      StandardiseSnoc(xs, c, d);
      AddQuotients(SumDev(init, c), xs[|xs| - 1] - c, d);
    }
  }

  lemma AddQuotients(a: real, b: real, d: real)
    requires d != 0.0
    ensures a / d + b / d == (a + b) / d
  {
  }

  /** Peeling the last value off xs peels its score off the sum of scores. */
  lemma StandardiseSnoc(xs: seq<real>, c: real, d: real)
    requires d != 0.0 && xs != []
    ensures Sum(Standardise(xs, c, d)) == Sum(Standardise(xs[..|xs| - 1], c, d)) + (xs[|xs| - 1] - c) / d
  {
    var zs := Standardise(xs, c, d);
    assert zs[..|zs| - 1] == Standardise(xs[..|xs| - 1], c, d);
  }

  /** The scores of xs against its own mean add up to zero. */
  lemma CentredSum(xs: seq<real>, c: real, d: real)
    requires |xs| > 0 && d != 0.0 && c == Mean(xs)
    ensures Sum(Standardise(xs, c, d)) == 0.0
  {
    SumStandardise(xs, c, d);
    SumDevMean(xs, c);
    MeanTimesCount(Sum(xs), |xs| as real);
  }

  /** The standard scores of a non-constant history are centred: their mean is 0,
      because the scores measure each value against the history's own mean. */
  lemma StandardScoresCentred(xs: seq<real>, sqrt: real -> real)
    requires IsSqrt(sqrt) && |xs| > 0 && !AllEqual(xs)
    ensures sqrt(Variance(xs)) > 0.0
    ensures Mean(Standardise(xs, Mean(xs), sqrt(Variance(xs)))) == 0.0
  {
    var v := Variance(xs);
    VarianceZeroIff(xs);
    SqrtPositive(sqrt, v);
    var zs := Standardise(xs, Mean(xs), sqrt(v));
    CentredSum(xs, Mean(xs), sqrt(v));
    assert Mean(zs) == Sum(zs) / |zs| as real;
  }

  /** n times the mean s / n is the sum s back. */
  lemma MeanTimesCount(s: real, n: real)
    requires n != 0.0
    ensures s - n * (s / n) == 0.0
  {
    DivMul(s, n);
  }
}
