/** buildHistogram and histogramCorrelation of src/cme.ts: a histogram of the
    mean of the first three channels over a clamped bin index, and the Pearson
    correlation of two histograms computed from their mean-centred values,
    with no guard against a zero denominator. */
module CmeHistogram {
  import opened JsMath
  import opened Sums
  import opened Counting
  import opened HistogramMetric

  /** The bin count compareImages builds its histograms with (buildHistogram's default). */
  const DefaultBins: nat := 32

  /** Every pixel has at least the three colour channels. */
  predicate HasRgb(img: seq<seq<real>>) {
    forall k :: 0 <= k < |img| ==> 3 <= |img[k]|
  }

  /** ... and they lie in [0, 1]. */
  predicate RgbInUnit(img: seq<seq<real>>) {
    HasRgb(img) &&
    forall k :: 0 <= k < |img| ==>
      0.0 <= img[k][0] <= 1.0 && 0.0 <= img[k][1] <= 1.0 && 0.0 <= img[k][2] <= 1.0
  }

  /** The grayscale intensity of a pixel: the plain mean of r, g and b. */
  function Intensity(p: seq<real>): real
    requires 3 <= |p|
  {
    (p[0] + p[1] + p[2]) / 3.0
  }

  /** min(bins - 1, floor(intensity * bins)). */
  function BinIndex(intensity: real, bins: nat): int {
    Min(bins - 1, (intensity * bins as real).Floor)
  }

  /** For an intensity in [0, 1] the index is a bin; intensity 1, whose floor
      is `bins`, is clamped into the last bin. */
  lemma BinIndexInRange(v: real, bins: nat)
    requires 0 < bins && 0.0 <= v <= 1.0
    ensures 0 <= BinIndex(v, bins) < bins
    ensures v == 1.0 ==> BinIndex(v, bins) == bins - 1
  {
    var b := bins as real;
    NonNegativeProduct(v, b);
    NonNegativeProduct(1.0 - v, b);
    assert Mul(v, b) + Mul(1.0 - v, b) == b;
  }

  /** The bin of every pixel, in pixel order. */
  function BinIndices(img: seq<seq<real>>, bins: nat): (s: seq<int>)
    requires HasRgb(img)
    ensures |s| == |img|
  {
    seq(|img|, k requires 0 <= k < |img| => BinIndex(Intensity(img[k]), bins))
  }

  /** buildHistogram: count every pixel into its bin in place, then map every
      count to its share of the pixel count. */
  method BuildHistogram(img: seq<seq<real>>, bins: nat) returns (h: seq<real>)
    requires 0 < |img| && 0 < bins && RgbInUnit(img)
    ensures h == Frequencies(BinIndices(img, bins), bins)
  {
    var hist := new real[bins](_ => 0.0);
    ghost var idx := BinIndices(img, bins);
    for i := 0 to |img|
      invariant forall v :: 0 <= v < bins ==> hist[v] == Count(idx[..i], v) as real
    {
      var p := img[i];
      var intensity := (p[0] + p[1] + p[2]) / 3.0;
      var j := Min(bins - 1, (intensity * bins as real).Floor);
      BinIndexInRange(intensity, bins);
      hist[j] := hist[j] + 1.0;
      assert idx[..i + 1] == idx[..i] + [j];
      forall v | 0 <= v < bins
        ensures Count(idx[..i + 1], v) == Count(idx[..i], v) + (if j == v then 1 else 0)
      {
        CountSnoc(idx[..i], j, v);
      }
    }
    assert idx[..|img|] == idx;
    var counts := hist[..];
    h := seq(bins, v requires 0 <= v < bins => counts[v] / |img| as real);
  }

  /** The histogram has `bins` entries in [0, 1] that sum to 1. */
  lemma BuildHistogramIsDistribution(img: seq<seq<real>>, bins: nat)
    requires 0 < |img| && 0 < bins && RgbInUnit(img)
    ensures |Frequencies(BinIndices(img, bins), bins)| == bins
    ensures Sum(Frequencies(BinIndices(img, bins), bins), bins) == 1.0
    ensures forall v :: 0 <= v < bins ==> 0.0 <= Frequencies(BinIndices(img, bins), bins)[v] <= 1.0
  {
    var idx := BinIndices(img, bins);
    forall k | 0 <= k < |idx|
      ensures 0 <= idx[k] < bins
    {
      BinIndexInRange(Intensity(img[k]), bins);
    }
    assert InBins(idx, bins);
    FrequenciesSumToOne(idx, bins);
    forall v | 0 <= v < bins
      ensures 0.0 <= Frequencies(idx, bins)[v] <= 1.0
    {
      FrequencyInUnitInterval(idx, bins, v);
    }
  }

  /** h.reduce((a, b) => a + b) / h.length. */
  function Mean(h: seq<real>): real
    requires 0 < |h|
  {
    Sum(h, |h|) / |h| as real
  }

  /** h[i] - avg for every i. */
  function Deviations(h: seq<real>, avg: real): (d: seq<real>)
    ensures |d| == |h|
  {
    seq(|h|, i requires 0 <= i < |h| => h[i] - avg)
  }

  /** num, den1 and den2 of histogramCorrelation. */
  datatype CentredSums = CentredSums(num: real, den1: real, den2: real)

  /** The sums over the first |h1| deviations of each histogram from its own mean. */
  function CentredSumsOf(h1: seq<real>, h2: seq<real>): CentredSums
    requires 0 < |h1| <= |h2|
  {
    var a, b := Deviations(h1, Mean(h1)), Deviations(h2, Mean(h2));
    CentredSums(Dot(a, b, |h1|), Dot(a, a, |h1|), Dot(b, b, |h1|))
  }

  /** What histogramCorrelation returns: num / Math.sqrt(den1 * den2), a
      JavaScript division with no guard. */
  function CentredCorrelation(h1: seq<real>, h2: seq<real>, sqrt: real -> real): JsNumber
    requires 0 < |h1| <= |h2|
  {
    var s := CentredSumsOf(h1, h2);
    Divide(s.num, sqrt(Mul(s.den1, s.den2)))
  }

  /** histogramCorrelation: both means, then num, den1 and den2 in one pass. */
  method HistogramCorrelation(h1: seq<real>, h2: seq<real>, sqrt: real -> real) returns (r: JsNumber)
    requires 0 < |h1| <= |h2|
    ensures r == CentredCorrelation(h1, h2, sqrt)
  {
    var avg1 := Mean(h1);
    var avg2 := Mean(h2);
    var num, den1, den2 := 0.0, 0.0, 0.0;
    for i := 0 to |h1|
      invariant num == Dot(Deviations(h1, avg1), Deviations(h2, avg2), i)
      invariant den1 == Dot(Deviations(h1, avg1), Deviations(h1, avg1), i)
      invariant den2 == Dot(Deviations(h2, avg2), Deviations(h2, avg2), i)
    {
      var a := h1[i] - avg1;
      var b := h2[i] - avg2;
      CentredStep(h1, h2, avg1, avg2, i, a, b);
      num := num + a * b;
      den1 := den1 + a * a;
      den2 := den2 + b * b;
    }
    CentredCorrelationOfDots(h1, h2, sqrt, num, den1, den2);
    MulIsProduct(den1, den2);
    r := Divide(num, sqrt(den1 * den2));
  }

  /** One step of histogramCorrelation's loop adds the products of the i-th deviations. */
  lemma CentredStep(h1: seq<real>, h2: seq<real>, avg1: real, avg2: real, i: nat, a: real, b: real)
    requires i < |h1| <= |h2| && a == h1[i] - avg1 && b == h2[i] - avg2
    ensures var d1, d2 := Deviations(h1, avg1), Deviations(h2, avg2);
            Dot(d1, d2, i + 1) == Dot(d1, d2, i) + a * b &&
            Dot(d1, d1, i + 1) == Dot(d1, d1, i) + a * a &&
            Dot(d2, d2, i + 1) == Dot(d2, d2, i) + b * b
  {
    var d1, d2 := Deviations(h1, avg1), Deviations(h2, avg2);
    assert d1[i] == a && d2[i] == b;
    assert Mul(d1[i], d2[i]) == Mul(a, b) == a * b;
    assert Mul(d1[i], d1[i]) == Mul(a, a) == a * a;
    assert Mul(d2[i], d2[i]) == Mul(b, b) == b * b;
  }

  /** CentredCorrelation from the three dot products of the deviations. */
  lemma CentredCorrelationOfDots(h1: seq<real>, h2: seq<real>, sqrt: real -> real, num: real, den1: real, den2: real)
    requires 0 < |h1| <= |h2|
    requires var a, b := Deviations(h1, Mean(h1)), Deviations(h2, Mean(h2));
             num == Dot(a, b, |h1|) && den1 == Dot(a, a, |h1|) && den2 == Dot(b, b, |h1|)
    ensures CentredCorrelation(h1, h2, sqrt) == Divide(num, sqrt(Mul(den1, den2)))
  {
  }

  /** Cauchy–Schwarz for the centred sums, with both sums of squares non-negative. */
  lemma CentredCauchySchwarz(h1: seq<real>, h2: seq<real>)
    requires 0 < |h1| <= |h2|
    ensures var s := CentredSumsOf(h1, h2);
            0.0 <= s.den1 && 0.0 <= s.den2 && Mul(s.num, s.num) <= Mul(s.den1, s.den2)
  {
    var a, b := Deviations(h1, Mean(h1)), Deviations(h2, Mean(h2));
    CauchySchwarz(a, b, |h1|);
    DotSelfNonNegative(a, |h1|);
    DotSelfNonNegative(b, |h1|);
  }

  /** num / sqrt(den1 * den2) for sums that satisfy Cauchy–Schwarz: never an
      infinity, NaN exactly when a sum of squares is 0 (then num is 0 too),
      and otherwise a value in [-1, 1]. */
  lemma CentredQuotient(num: real, den1: real, den2: real, sqrt: real -> real)
    requires IsSqrt(sqrt) && 0.0 <= den1 && 0.0 <= den2 && Mul(num, num) <= Mul(den1, den2)
    ensures !Divide(num, sqrt(Mul(den1, den2))).Infinity?
    ensures Divide(num, sqrt(Mul(den1, den2))).NaN? <==> den1 == 0.0 || den2 == 0.0
    ensures Divide(num, sqrt(Mul(den1, den2))).Finite? ==> -1.0 <= Divide(num, sqrt(Mul(den1, den2))).value <= 1.0
  {
    var p := Mul(den1, den2);
    ProductOfNonNegatives(den1, den2);
    SqrtZeroIff(sqrt, p);
    SqrtOf(sqrt, p);
    SquareProperties(num);
    var d := sqrt(p);
    if d != 0.0 {
      QuotientInUnitRange(num, d);
    }
  }

  /** With no zero guard, histogramCorrelation is NaN exactly when one of the
      histograms is flat over the compared bins (all its deviations are 0);
      it is never infinite, and otherwise it lies in [-1, 1]. */
  lemma CentredCorrelationCases(h1: seq<real>, h2: seq<real>, sqrt: real -> real)
    requires 0 < |h1| <= |h2| && IsSqrt(sqrt)
    ensures !CentredCorrelation(h1, h2, sqrt).Infinity?
    ensures CentredCorrelation(h1, h2, sqrt).NaN? <==>
              CentredSumsOf(h1, h2).den1 == 0.0 || CentredSumsOf(h1, h2).den2 == 0.0
    ensures CentredCorrelation(h1, h2, sqrt).Finite? ==> -1.0 <= CentredCorrelation(h1, h2, sqrt).value <= 1.0
  {
    var s := CentredSumsOf(h1, h2);
    CentredCauchySchwarz(h1, h2);
    CentredQuotient(s.num, s.den1, s.den2, sqrt);
  }

  /** histogramCorrelation is symmetric in two histograms of the same length. */
  lemma CentredCorrelationSymmetric(h1: seq<real>, h2: seq<real>, sqrt: real -> real)
    requires 0 < |h1| == |h2|
    ensures CentredCorrelation(h1, h2, sqrt) == CentredCorrelation(h2, h1, sqrt)
  {
    var a, b := Deviations(h1, Mean(h1)), Deviations(h2, Mean(h2));
    DotSymmetric(a, b, |h1|);
    MulCommutes(Dot(a, a, |h1|), Dot(b, b, |h1|));
  }

  /** A histogram correlates with itself with value 1, unless it is flat,
      where the missing guard gives NaN (corr in src/metrics/histogram.ts
      gives 0 there). */
  lemma CentredCorrelationWithItself(h: seq<real>, sqrt: real -> real)
    requires 0 < |h| && IsSqrt(sqrt)
    ensures CentredCorrelation(h, h, sqrt) == if CentredSumsOf(h, h).den1 == 0.0 then NaN else Finite(1.0)
  {
    var s := CentredSumsOf(h, h);
    var p := s.den1;
    assert s.num == p && s.den2 == p;
    DotSelfNonNegative(Deviations(h, Mean(h)), |h|);
    SqrtOfSquare(sqrt, p);
  }

  lemma DeviationsAffine(h: seq<real>, avg: real)
    ensures Deviations(h, avg) == Affine(h, 1.0, avg)
  {
    forall i | 0 <= i < |h|
      ensures Deviations(h, avg)[i] == Affine(h, 1.0, avg)[i]
    {
      assert Mul(1.0, h[i]) == h[i];
    }
  }

  /** The centred dot product is corr's numerator divided by n. */
  lemma CentredDotOfSums(x: seq<real>, y: seq<real>)
    requires 0 < |x| == |y|
    ensures Dot(Deviations(x, Mean(x)), Deviations(y, Mean(y)), |x|) == Numerator(RunningSums(x, y, |x|)) / |x| as real
  {
    var n := |x|;
    var ax, ay := Mean(x), Mean(y);
    DeviationsAffine(x, ax);
    DeviationsAffine(y, ay);
    var v := Affine(y, 1.0, ay);
    DotAffineLeft(x, v, n, 1.0, ax);
    DotAffineRight(x, y, n, 1.0, ay);
    SumAffine(y, n, 1.0, ay);
    CentringStep(Dot(x, y, n), Sum(x, n), Sum(y, n), n as real, ax, ay,
                 Dot(x, v, n), Sum(v, n), Dot(Affine(x, 1.0, ax), v, n));
  }

  /** The algebra of CentredDotOfSums: E = x.(y - ay), T = sum(y - ay) = 0
      and F = (x - ax).(y - ay) = E - ax*T. */
  lemma CentringStep(D: real, Sx: real, Sy: real, m: real, ax: real, ay: real, E: real, T: real, F: real)
    requires 0.0 < m && ay == Sy / m
    requires E == Mul(1.0, D) - Mul(ay, Sx) && T == Mul(1.0, Sy) - Mul(m, ay) && F == Mul(1.0, E) - Mul(ax, T)
    ensures F == (Mul(m, D) - Mul(Sx, Sy)) / m
  {
    assert T == 0.0 by {
      calc {
        T;
      ==
        Sy - m * (Sy / m);
      ==
        0.0;
      }
    }
    calc {
      F;
    ==
      D - (Sy / m) * Sx;
    ==
      (m * D - Sx * Sy) / m;
    ==
      (Mul(m, D) - Mul(Sx, Sy)) / m;
    }
  }

  /** The centred sums are corr's numerator and spreads, each divided by n. */
  lemma CentredSumsOfPearson(x: seq<real>, y: seq<real>)
    requires 0 < |x| == |y|
    ensures var s, t, m := CentredSumsOf(x, y), RunningSums(x, y, |x|), |x| as real;
            s.num == Numerator(t) / m && s.den1 == SpreadX(t) / m && s.den2 == SpreadY(t) / m
  {
    CentredDotOfSums(x, y);
    CentredDotOfSums(x, x);
    CentredDotOfSums(y, y);
    SelfNumerator(x, |x|);
    SelfNumerator(y, |x|);
    SpreadsOfRunningSums(x, y, |x|);
  }

  /** Math.sqrt of p scaled down by m twice is Math.sqrt(p) / m. */
  lemma SqrtScale(sqrt: real -> real, p: real, q: real, m: real)
    requires IsSqrt(sqrt) && 0.0 <= p && 0.0 <= q && 0.0 < m && Mul(Mul(q, m), m) == p
    ensures sqrt(q) == sqrt(p) / m
  {
    SqrtOf(sqrt, p);
    SqrtOf(sqrt, q);
    ScaledRoot(sqrt(p), sqrt(q), p, q, m);
  }

  /** The algebra of SqrtScale: a root of q, where q*m*m = p, is a root of p divided by m. */
  lemma ScaledRoot(r: real, e: real, p: real, q: real, m: real)
    requires 0.0 <= r && 0.0 <= e && 0.0 < m
    requires Mul(r, r) == p && Mul(e, e) == q && Mul(Mul(q, m), m) == p
    ensures e == r / m
  {
    var t := e * m;
    assert 0.0 <= t;
    calc {
      t * t;
    ==
      ((e * e) * m) * m;
    ==
      r * r;
    }
    SquareRootUnique(t, r);
  }

  /** Dividing numerator and both spreads by m > 0 changes corr's formula
      only where its denominator is 0. */
  lemma ScaledQuotient(N: real, X: real, Y: real, m: real, sqrt: real -> real)
    requires IsSqrt(sqrt) && 0.0 < m && 0.0 <= X && 0.0 <= Y && Mul(N, N) <= Mul(X, Y)
    ensures Divide(N / m, sqrt(Mul(X / m, Y / m))) ==
              if Mul(X, Y) == 0.0 then NaN else Finite(Ratio(N, sqrt(Mul(X, Y))))
  {
    var p, q := Mul(X, Y), Mul(X / m, Y / m);
    ProductOfNonNegatives(X, Y);
    NonNegativeProduct(X / m, Y / m);
    ProductOfQuotients(X, Y, m);
    SqrtScale(sqrt, p, q, m);
    SqrtOf(sqrt, p);
    SqrtZeroIff(sqrt, p);
    var r := sqrt(p);
    if p == 0.0 {
      SquareProperties(N);
    } else {
      QuotientOfScaled(N, r, m);
    }
  }

  /** (x/m)(y/m), scaled back up by m twice, is xy. */
  lemma ProductOfQuotients(x: real, y: real, m: real)
    requires m != 0.0
    ensures Mul(Mul(Mul(x / m, y / m), m), m) == Mul(x, y)
  {
    var a, b := x / m, y / m;
    assert a * m == x && b * m == y;
    calc {
      ((a * b) * m) * m;
    ==
      (a * m) * (b * m);
    ==
      x * y;
    }
  }

  lemma QuotientOfScaled(a: real, b: real, m: real)
    requires b != 0.0 && m != 0.0
    ensures (a / m) / (b / m) == a / b
  {
    calc {
      (a / m) / (b / m);
    ==
      ((a / m) * m) / ((b / m) * m);
    ==
      a / b;
    }
  }

  /** The two pipelines agree: on histograms of the same length, the
      mean-centred correlation of src/cme.ts equals corr of
      src/metrics/histogram.ts, except on a flat histogram, where corr
      returns its sentinel 0 and histogramCorrelation returns NaN. */
  lemma CentredAgreesWithCorr(x: seq<real>, y: seq<real>, sqrt: real -> real)
    requires IsSqrt(sqrt) && 0 < |x| == |y|
    ensures Spread(x, |x|) == 0.0 || Spread(y, |x|) == 0.0 ==>
              CentredCorrelation(x, y, sqrt) == NaN && Correlation(x, y, sqrt) == 0.0
    ensures Spread(x, |x|) != 0.0 && Spread(y, |x|) != 0.0 ==>
              CentredCorrelation(x, y, sqrt) == Finite(Correlation(x, y, sqrt))
  {
    var t := RunningSums(x, y, |x|);
    CentredSumsOfPearson(x, y);
    PearsonCauchySchwarz(x, y, |x|);
    ScaledQuotient(Numerator(t), SpreadX(t), SpreadY(t), |x| as real, sqrt);
    ProductOfNonNegatives(SpreadX(t), SpreadY(t));
    CorrelationZeroDenominator(x, y, sqrt);
    SpreadsOfRunningSums(x, y, |x|);
  }
}
