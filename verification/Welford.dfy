/** The one-pass mean and variance of the anomaly detector, over the reals: exact against the two-pass definitions,
    blind to the order of the window, and the z-score that is read off it. */
module Welford {
  import opened Bags

  // ----- The two-pass definitions -----

  function Total(xs: seq<real>, f: real -> real): real
  {
    if xs == [] then 0.0 else Total(xs[..|xs| - 1], f) + f(xs[|xs| - 1])
  }

  function Itself(): real -> real { (x: real) => x }

  function SquareFrom(c: real): real -> real { (x: real) => Square(x - c) }

  function Square(x: real): real { x * x }

  function Mean(xs: seq<real>): real
  {
    if xs == [] then 0.0 else Total(xs, Itself()) / |xs| as real
  }

  /** The sum of squared deviations from the mean. */
  function Scatter(xs: seq<real>): real { Total(xs, SquareFrom(Mean(xs))) }

  /** The sample variance. */
  function Variance(xs: seq<real>): real
    requires |xs| >= 2
  {
    Scatter(xs) / (|xs| - 1) as real
  }

  /** The square root is a parameter of the model. */
  ghost predicate IsRoot(root: real -> real)
  {
    forall v: real :: v >= 0.0 ==> root(v) >= 0.0 && root(v) * root(v) == v
  }

  function Spread(xs: seq<real>, root: real -> real): real
  {
    if |xs| < 2 then 0.0 else root(Variance(xs))
  }

  /** The squared distances of all pairs of samples, each pair once. */
  function PairSpread(xs: seq<real>): real
  {
    if xs == [] then 0.0
    else
      var front := xs[..|xs| - 1];
      PairSpread(front) + Total(front, SquareFrom(xs[|xs| - 1]))
  }

  // ----- The one pass -----

  /** A sum of squares about any centre, by the plain sums. */
  lemma {:induction false} Expanded(xs: seq<real>, c: real)
    ensures Total(xs, SquareFrom(c)) == AboutCentre(Total(xs, SquareFrom(0.0)), Total(xs, Itself()), |xs| as real, c)
  {
    if xs != [] {
      var front, x := xs[..|xs| - 1], xs[|xs| - 1];
      Expanded(front, c);
      ExpandStep(Total(front, SquareFrom(0.0)), Total(front, Itself()), |front| as real, x, c);
    }
  }

  function AboutCentre(squares: real, sum: real, n: real, c: real): real { squares - 2.0 * c * sum + n * c * c }

  lemma ExpandStep(s: real, t: real, n: real, x: real, c: real)
    ensures AboutCentre(s, t, n, c) + SquareFrom(c)(x) == AboutCentre(s + SquareFrom(0.0)(x), t + x, n + 1.0, c)
  {
    assert Square(x - c) == x * x - 2.0 * c * x + c * c;
    assert Square(x - 0.0) == x * x;
  }

  /** The update of m and m2 by one more sample x. */
  lemma OnePassStep(xs: seq<real>, x: real, k: real, m: real, m': real)
    requires IsMean(xs, k, m) && x - m == (m' - m) * (k + 1.0)
    ensures IsMean(xs + [x], k + 1.0, m')
    ensures Total(xs + [x], SquareFrom(m')) == Total(xs, SquareFrom(m)) + (x - m) * (x - m')
  {
    assert (xs + [x])[..|xs|] == xs;
    assert |xs + [x]| as real == k + 1.0;
    Expanded(xs, m);
    Expanded(xs + [x], m');
    MoveStep(Total(xs, SquareFrom(0.0)), Total(xs, Itself()), k, x, m, m');
  }

  ghost predicate IsMean(xs: seq<real>, k: real, m: real) { k == |xs| as real && Total(xs, Itself()) == m * k }

  lemma MoveStep(s: real, t: real, k: real, x: real, m: real, m': real)
    requires t == m * k && x - m == (m' - m) * (k + 1.0)
    ensures m' * (k + 1.0) == t + x
    ensures AboutCentre(s + SquareFrom(0.0)(x), t + x, k + 1.0, m') == AboutCentre(s, t, k, m) + (x - m) * (x - m')
  {
    var q := m' - m;
    assert x == m + q * (k + 1.0) && m' == m + q;
    assert Square(x - 0.0) == x * x;
  }

  lemma Divided(d: real, n: real)
    requires n != 0.0
    ensures d / n * n == d
  {
  }

  lemma MeanFrom(xs: seq<real>, m: real)
    requires xs != [] && IsMean(xs, |xs| as real, m)
    ensures m == Mean(xs)
  {
  }

  method Absorb(n: nat, m: real, m2: real, x: real) returns (m': real, m2': real)
    requires n > 0
    ensures x - m == (m' - m) * n as real
    ensures m2' == m2 + (x - m) * (x - m')
  {
    var delta := x - m;
    Divided(delta, n as real);
    m' := m + delta / n as real;
    var delta2 := x - m';
    m2' := m2 + delta * delta2;
  }

  /** The mean and the standard deviation; the clamp at zero never changes the variance. */
  method Welford(samples: seq<real>, root: real -> real) returns (mean: real, std: real)
    ensures mean == Mean(samples) && std == Spread(samples, root)
    ensures mean * |samples| as real == Total(samples, Itself())
    ensures IsRoot(root) && |samples| >= 2 ==>
              std >= 0.0 && PairSpread(samples) == |samples| as real * ((|samples| - 1) as real * Square(std))
  {
    mean, std := OnePass(samples, root);
    MeanBalances(samples);
    if IsRoot(root) && |samples| >= 2 {
      SpreadFromPairs(samples, |samples| as real, (|samples| - 1) as real, Square(std), root);
    }
  }

  method OnePass(samples: seq<real>, root: real -> real) returns (mean: real, std: real)
    ensures mean == Mean(samples) && std == Spread(samples, root)
  {
    if |samples| == 0 {
      return 0.0, 0.0;
    }
    if |samples| == 1 {
      MeanFrom(samples, samples[0]);
      return samples[0], 0.0;
    }
    var n := 0;
    var m, m2 := 0.0, 0.0;
    ghost var k := 0.0;
    while n < |samples|
      invariant 0 <= n <= |samples|
      invariant IsMean(samples[..n], k, m)
      invariant m2 == Total(samples[..n], SquareFrom(m))
    {
      var x := samples[n];
      assert samples[..n + 1] == samples[..n] + [x];
      n := n + 1;
      ghost var was := m;
      m, m2 := Absorb(n, m, m2, x);
      OnePassStep(samples[..n - 1], x, k, was, m);
      k := k + 1.0;
    }
    assert samples[..n] == samples;
    MeanFrom(samples, m);
    NeverNegative(samples);
    var variance := m2 / (n - 1) as real;
    return m, root(if variance < 0.0 then 0.0 else variance);
  }

  lemma MeanBalances(xs: seq<real>)
    ensures Mean(xs) * |xs| as real == Total(xs, Itself())
  {
    if xs != [] {
      Divided(Total(xs, Itself()), |xs| as real);
    }
  }

  /** The pairs, by the plain sums. */
  lemma {:induction false} PairsExpanded(xs: seq<real>)
    ensures PairSpread(xs) == |xs| as real * Total(xs, SquareFrom(0.0)) - Square(Total(xs, Itself()))
  {
    if xs != [] {
      var front, x := xs[..|xs| - 1], xs[|xs| - 1];
      PairsExpanded(front);
      Expanded(front, x);
      PairStep(Total(front, SquareFrom(0.0)), Total(front, Itself()), |front| as real, x);
    }
  }

  lemma PairStep(s: real, t: real, n: real, x: real)
    ensures n * s - Square(t) + AboutCentre(s, t, n, x) == (n + 1.0) * (s + SquareFrom(0.0)(x)) - Square(t + x)
  {
    assert Square(x - 0.0) == x * x;
    assert Square(t + x) == t * t + 2.0 * t * x + x * x;
  }

  lemma AboutMean(s: real, t: real, n: real, c: real)
    requires t == c * n
    ensures n * AboutCentre(s, t, n, c) == n * s - Square(t)
  {
    assert AboutCentre(s, t, n, c) == s - c * t;
    assert Square(t) == n * (c * t);
  }

  lemma PairsAboutMean(xs: seq<real>, n: real, c: real)
    requires IsMean(xs, n, c)
    ensures PairSpread(xs) == n * Total(xs, SquareFrom(c))
  {
    PairsExpanded(xs);
    Expanded(xs, c);
    AboutMean(Total(xs, SquareFrom(0.0)), Total(xs, Itself()), n, c);
  }

  lemma PairsFromScatter(xs: seq<real>, n: real)
    requires n == |xs| as real
    ensures PairSpread(xs) == n * Scatter(xs)
  {
    MeanBalances(xs);
    PairsAboutMean(xs, n, Mean(xs));
  }

  lemma ScatterFromSpread(xs: seq<real>, m: real, root: real -> real)
    requires IsRoot(root) && |xs| >= 2 && m == (|xs| - 1) as real
    ensures Spread(xs, root) >= 0.0 && Scatter(xs) == m * Square(Spread(xs, root))
  {
    SpreadSquared(xs, root);
    Divided(Scatter(xs), m);
  }

  lemma PairsFromValue(xs: seq<real>, n: real, scatter: real)
    requires n == |xs| as real && Scatter(xs) == scatter
    ensures PairSpread(xs) == n * scatter
  {
    PairsFromScatter(xs, n);
  }

  /** The squared deviation v, taken n (n - 1) times, is what the pairs of samples lie apart. */
  lemma SpreadFromPairs(xs: seq<real>, n: real, m: real, v: real, root: real -> real)
    requires IsRoot(root) && |xs| >= 2 && n == |xs| as real && m == (|xs| - 1) as real
    requires v == Square(Spread(xs, root))
    ensures Spread(xs, root) >= 0.0 && PairSpread(xs) == n * (m * v)
  {
    ScatterFromSpread(xs, m, root);
    PairsFromValue(xs, n, m * v);
  }

  lemma SpreadSquared(xs: seq<real>, root: real -> real)
    requires IsRoot(root) && |xs| >= 2
    ensures Spread(xs, root) >= 0.0 && Square(Spread(xs, root)) == Variance(xs)
  {
    NeverNegative(xs);
  }

  lemma Positive(a: real, b: real, product: real)
    requires a > 0.0 && b > 0.0 && product == a * b
    ensures product > 0.0
  {
  }

  lemma SquareSign(x: real)
    ensures x != 0.0 ==> Square(x) > 0.0
    ensures x == 0.0 ==> Square(x) == 0.0
  {
    if x > 0.0 {
      Positive(x, x, Square(x));
    } else if x < 0.0 {
      Positive(-x, -x, Square(x));
    }
  }

  lemma {:induction false} SquaresNeverNegative(xs: seq<real>, c: real)
    ensures Total(xs, SquareFrom(c)) >= 0.0
    ensures Total(xs, SquareFrom(c)) == 0.0 <==> forall i :: 0 <= i < |xs| ==> xs[i] == c
  {
    if xs != [] {
      var x := xs[|xs| - 1];
      SquaresNeverNegative(xs[..|xs| - 1], c);
      SquareSign(x - c);
    }
  }

  lemma NeverNegative(xs: seq<real>)
    requires |xs| >= 2
    ensures Scatter(xs) >= 0.0 && Variance(xs) >= 0.0
  {
    SquaresNeverNegative(xs, Mean(xs));
  }

  lemma FromMean(s: real, t: real, n: real, c: real, d: real)
    requires t == c * n && n > 0.0
    ensures AboutCentre(s, t, n, d) >= AboutCentre(s, t, n, c)
    ensures AboutCentre(s, t, n, d) == AboutCentre(s, t, n, c) <==> d == c
  {
    var e := SquareFrom(c)(d);
    assert AboutCentre(s, t, n, d) == AboutCentre(s, t, n, c) + n * e;
    if d != c {
      SquareSign(d - c);
      Positive(n, e, n * e);
    }
  }

  lemma AnyMeanIsClosest(xs: seq<real>, n: real, c: real, d: real)
    requires IsMean(xs, n, c) && n > 0.0
    ensures Total(xs, SquareFrom(d)) >= Total(xs, SquareFrom(c))
    ensures Total(xs, SquareFrom(d)) == Total(xs, SquareFrom(c)) <==> d == c
  {
    Expanded(xs, c);
    Expanded(xs, d);
    FromMean(Total(xs, SquareFrom(0.0)), Total(xs, Itself()), n, c, d);
  }

  /** No other centre is closer to the samples than the mean. */
  lemma MeanIsClosest(xs: seq<real>, d: real)
    requires xs != []
    ensures Total(xs, SquareFrom(d)) >= Scatter(xs)
    ensures Total(xs, SquareFrom(d)) == Scatter(xs) <==> d == Mean(xs)
  {
    Divided(Total(xs, Itself()), |xs| as real);
    AnyMeanIsClosest(xs, |xs| as real, Mean(xs), d);
  }

  lemma {:induction false} ConstantTotal(xs: seq<real>, c: real)
    requires forall i :: 0 <= i < |xs| ==> xs[i] == c
    ensures Total(xs, Itself()) == |xs| as real * c
  {
    if xs != [] {
      ConstantTotal(xs[..|xs| - 1], c);
    }
  }

  ghost predicate AllEqual(xs: seq<real>)
  {
    forall i, j :: 0 <= i < |xs| && 0 <= j < |xs| ==> xs[i] == xs[j]
  }

  lemma ZeroQuotient(d: real, n: real)
    requires d >= 0.0 && n > 0.0
    ensures d / n == 0.0 <==> d == 0.0
  {
    Divided(d, n);
  }

  /** The deviation is zero only for a window of equal samples, however large the window. */
  lemma ZeroSpreadExactlyWhenConstant(xs: seq<real>, root: real -> real)
    requires IsRoot(root)
    ensures Spread(xs, root) >= 0.0
    ensures Spread(xs, root) == 0.0 <==> |xs| < 2 || AllEqual(xs)
  {
    if |xs| >= 2 {
      SquaresNeverNegative(xs, Mean(xs));
      NeverNegative(xs);
      if AllEqual(xs) {
        ConstantTotal(xs, xs[0]);
        MeanFrom(xs, xs[0]);
      }
      ZeroQuotient(Scatter(xs), (|xs| - 1) as real);
      assert Spread(xs, root) * Spread(xs, root) == Variance(xs);
      SquareSign(Spread(xs, root));
    }
  }

  // ----- The order of the window does not matter -----

  lemma {:induction false} TotalWithout(xs: seq<real>, i: nat, f: real -> real)
    requires i < |xs|
    ensures Total(xs, f) == Total(Without(xs, i), f) + f(xs[i])
  {
    var n := |xs| - 1;
    if i < n {
      TotalWithout(xs[..n], i, f);
      assert Without(xs, i)[..n - 1] == Without(xs[..n], i);
    } else {
      assert Without(xs, i) == xs[..n];
    }
  }

  lemma {:induction false} TotalReordered(xs: seq<real>, ys: seq<real>, f: real -> real)
    requires multiset(xs) == multiset(ys)
    ensures |xs| == |ys| && Total(xs, f) == Total(ys, f)
    decreases |xs|
  {
    SameLength(xs, ys);
    if xs != [] {
      var i := LastFound(xs, ys);
      TotalReordered(xs[..|xs| - 1], Without(ys, i), f);
      TotalWithout(ys, i, f);
    }
  }

  /** Any permutation of the window has the same mean and deviation. */
  lemma OrderDoesNotMatter(xs: seq<real>, ys: seq<real>, root: real -> real)
    requires multiset(xs) == multiset(ys)
    ensures Mean(xs) == Mean(ys) && Spread(xs, root) == Spread(ys, root)
  {
    TotalReordered(xs, ys, Itself());
    TotalReordered(xs, ys, SquareFrom(Mean(xs)));
  }

  // ----- The z-score -----

  datatype Score = Scored(z: real) | WindowTooSmall | ZeroVariance

  method ComputeZScore(window: seq<real>, sample: real, root: real -> real) returns (r: Score)
    requires IsRoot(root)
    ensures r.WindowTooSmall? <==> |window| < 2
    ensures r.ZeroVariance? <==> |window| >= 2 && AllEqual(window)
    ensures r.Scored? ==> Spread(window, root) > 0.0 && Mean(window) + r.z * Spread(window, root) == sample
    ensures forall other :: multiset(other) == multiset(window) ==> r == ZScore(other, sample, root)
  {
    ZeroSpreadExactlyWhenConstant(window, root);
    forall other | multiset(other) == multiset(window)
      ensures ZScore(window, sample, root) == ZScore(other, sample, root)
    {
      OrderDoesNotMatter(window, other, root);
      TotalReordered(window, other, Itself());
    }
    if |window| < 2 {
      return WindowTooSmall;
    }
    var mean, std := Welford(window, root);
    if std == 0.0 {
      return ZeroVariance;
    }
    return Scored((sample - mean) / std);
  }

  function ZScore(window: seq<real>, sample: real, root: real -> real): Score
  {
    if |window| < 2 then WindowTooSmall
    else if Spread(window, root) == 0.0 then ZeroVariance
    else Scored((sample - Mean(window)) / Spread(window, root))
  }

  // ----- The trigger -----

  function Abs(x: real): real { if x < 0.0 then -x else x }

  /** What Update derives from a window before it consults the store again. */
  datatype Reading = Reading(z: real, mean: real, std: real, size: nat, triggered: bool)

  function Read(window: seq<real>, sample: real, threshold: real, root: real -> real): Reading
  {
    var mean, std := Mean(window), Spread(window, root);
    var z := if std > 0.0 then (sample - mean) / std else 0.0;
    Reading(z, mean, std, |window|, std > 0.0 && Abs(z) > threshold)
  }

  lemma SquaresCompare(a: real, b: real)
    requires a >= 0.0 && b >= 0.0
    ensures a > b <==> Square(a) > Square(b)
  {
    if a > b {
      Positive(a - b, a + b, Square(a) - Square(b));
    } else if a < b {
      Positive(b - a, a + b, Square(b) - Square(a));
    }
  }

  lemma Scaled(q: real, std: real, t: real)
    requires std > 0.0
    ensures Abs(q) > t <==> Abs(q * std) > t * std
  {
    var a, p := Abs(q), q * std;
    if q < 0.0 {
      Positive(-q, std, -p);
    } else if q > 0.0 {
      Positive(q, std, p);
    }
    if a > t {
      Positive(a - t, std, a * std - t * std);
    } else if a < t {
      Positive(t - a, std, t * std - a * std);
    }
  }

  lemma Quotient(d: real, std: real, t: real)
    requires std > 0.0
    ensures Abs(d / std) > t <==> Abs(d) > t * std
  {
    Divided(d, std);
    Scaled(d / std, std, t);
  }

  /** Whether a sample is an outlier can be told without dividing or taking roots: its squared distance from the mean
      against the variance. */
  lemma TriggersExactlyWhen(window: seq<real>, sample: real, threshold: real, root: real -> real)
    requires IsRoot(root) && threshold > 0.0
    ensures Read(window, sample, threshold, root).triggered
            <==> |window| >= 2 && !AllEqual(window)
                 && Square(sample - Mean(window)) > Square(threshold) * Variance(window)
  {
    ZeroSpreadExactlyWhenConstant(window, root);
    var d, std := sample - Mean(window), Spread(window, root);
    if std > 0.0 {
      NeverNegative(window);
      Quotient(d, std, threshold);
      SquaresCompare(Abs(d), threshold * std);
      assert Square(Abs(d)) == Square(d);
      assert Square(threshold * std) == Square(threshold) * (std * std);
    }
  }

  lemma ReadingIgnoresOrder(xs: seq<real>, ys: seq<real>, sample: real, threshold: real, root: real -> real)
    requires multiset(xs) == multiset(ys)
    ensures Read(xs, sample, threshold, root) == Read(ys, sample, threshold, root)
  {
    OrderDoesNotMatter(xs, ys, root);
    TotalReordered(xs, ys, Itself());
  }
}
