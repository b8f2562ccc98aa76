/** The grayscale histogram metric of src/metrics/histogram.ts: a 256-bin
    frequency histogram per image and the Pearson correlation of the two
    histograms, with 0 reported when the correlation's denominator is 0. */
module HistogramMetric {
  import opened Types
  import opened JsMath
  import opened Sums
  import opened Counting
  import opened Image

  /** The bin count histogramCorrelationGray asks for (histogramGray's default). */
  const GrayBins: nat := 256

  /** histogramGray: count each sample into the bin of its value (a sample
      whose value is not below `bins` writes outside the Float64Array and is
      lost), then divide every bin by the number of samples in the buffer. */
  method HistogramGray(img: ImageDataLike, bins: nat) returns (h: seq<real>)
    requires 0 < |img.data|
    ensures h == Frequencies(img.data, bins)
  {
    var hist := new real[bins](_ => 0.0);
    for i := 0 to |img.data|
      invariant forall v :: 0 <= v < bins ==> hist[v] == Count(img.data[..i], v) as real
    {
      var x := img.data[i];
      if x < bins {
        hist[x] := hist[x] + 1.0;
      }
      assert img.data[..i + 1] == img.data[..i] + [x];
      forall v | 0 <= v < bins
        ensures Count(img.data[..i + 1], v) == Count(img.data[..i], v) + (if x == v then 1 else 0)
      {
        CountSnoc(img.data[..i], x, v);
      }
    }
    assert img.data[..|img.data|] == img.data;
    var n := |img.data|;
    for i := 0 to bins
      invariant forall v :: 0 <= v < i ==> hist[v] == Count(img.data, v) as real / n as real
      invariant forall v :: i <= v < bins ==> hist[v] == Count(img.data, v) as real
    {
      hist[i] := hist[i] / n as real;
    }
    h := hist[..];
  }

  /** The five running sums corr accumulates, with the element count n. */
  datatype PearsonSums = PearsonSums(n: real, sumX: real, sumY: real, sumXY: real, sumX2: real, sumY2: real)

  /** The sums over the first n elements of x and y. */
  function RunningSums(x: seq<real>, y: seq<real>, n: nat): PearsonSums
    requires n <= |x| && n <= |y|
  {
    PearsonSums(n as real, Sum(x, n), Sum(y, n), Dot(x, y, n), Dot(x, x, n), Dot(y, y, n))
  }

  /** n*sumXY - sumX*sumY: the numerator of corr. */
  function Numerator(s: PearsonSums): real {
    Mul(s.n, s.sumXY) - Mul(s.sumX, s.sumY)
  }

  /** n*sumX2 - sumX^2 and n*sumY2 - sumY^2: n times the sum of squared
      deviations from the mean; corr takes the root of their product. */
  function SpreadX(s: PearsonSums): real {
    Mul(s.n, s.sumX2) - Mul(s.sumX, s.sumX)
  }

  function SpreadY(s: PearsonSums): real {
    Mul(s.n, s.sumY2) - Mul(s.sumY, s.sumY)
  }

  /** The quotient corr returns, with the sentinel 0 for a zero denominator. */
  function Ratio(num: real, den: real): real {
    if den == 0.0 then 0.0 else num / den
  }

  /** The product of the two spreads, which corr takes the square root of. */
  function SpreadProduct(s: PearsonSums): real {
    Mul(SpreadX(s), SpreadY(s))
  }

  /** The Pearson formula of corr on its sums. */
  function Pearson(s: PearsonSums, sqrt: real -> real): real {
    Ratio(Numerator(s), sqrt(SpreadProduct(s)))
  }

  /** The spread of the first n elements of a single sequence. */
  function Spread(x: seq<real>, n: nat): real
    requires n <= |x|
  {
    Mul(n as real, Dot(x, x, n)) - Mul(Sum(x, n), Sum(x, n))
  }

  /** What corr returns for the first |x| elements of x and y. */
  function Correlation(x: seq<real>, y: seq<real>, sqrt: real -> real): real
    requires |x| <= |y|
  {
    Pearson(RunningSums(x, y, |x|), sqrt)
  }

  /** corr: five running sums in one pass, then the Pearson formula. */
  method Corr(x: seq<real>, y: seq<real>, sqrt: real -> real) returns (r: real)
    requires |x| <= |y|
    ensures r == Correlation(x, y, sqrt)
  {
    var n := |x|;
    var sumX, sumY, sumXY, sumX2, sumY2 := 0.0, 0.0, 0.0, 0.0, 0.0;
    for i := 0 to n
      invariant sumX == Sum(x, i) && sumY == Sum(y, i)
      invariant sumXY == Dot(x, y, i) && sumX2 == Dot(x, x, i) && sumY2 == Dot(y, y, i)
    {
      var xi, yi := x[i], y[i];
      sumX := sumX + xi;
      sumY := sumY + yi;
      sumXY := sumXY + xi * yi;
      sumX2 := sumX2 + xi * xi;
      sumY2 := sumY2 + yi * yi;
    }
    r := Pearson(PearsonSums(n as real, sumX, sumY, sumXY, sumX2, sumY2), sqrt);
  }

  /** x centred on its mean and scaled by n, to stay free of division:
      n*x[i] - sum(x). */
  function Centred(x: seq<real>, n: nat): (u: seq<real>)
    requires n <= |x|
    ensures |u| == |x|
  {
    Affine(x, n as real, Sum(x, n))
  }

  lemma {:induction false} CentredSumZero(y: seq<real>, n: nat)
    requires n <= |y|
    ensures Sum(Centred(y, n), n) == 0.0
  {
    SumAffine(y, n, n as real, Sum(y, n));
  }

  lemma {:induction false} CentredRight(x: seq<real>, y: seq<real>, n: nat)
    requires n <= |x| && n <= |y|
    ensures Dot(x, Centred(y, n), n) == Numerator(RunningSums(x, y, n))
  {
    DotAffineRight(x, y, n, n as real, Sum(y, n));
    MulCommutes(Sum(y, n), Sum(x, n));
  }

  lemma {:induction false} CentredLeft(x: seq<real>, v: seq<real>, n: nat)
    requires n <= |x| && n <= |v| && Sum(v, n) == 0.0
    ensures Dot(Centred(x, n), v, n) == Mul(n as real, Dot(x, v, n))
  {
    DotAffineLeft(x, v, n, n as real, Sum(x, n));
  }

  /** Centring both sequences turns the Pearson numerator, times n, into a
      plain dot product. */
  lemma {:induction false} CentredDot(x: seq<real>, y: seq<real>, n: nat)
    requires n <= |x| && n <= |y|
    ensures Dot(Centred(x, n), Centred(y, n), n) == Mul(n as real, Numerator(RunningSums(x, y, n)))
  {
    CentredSumZero(y, n);
    CentredLeft(x, Centred(y, n), n);
    CentredRight(x, y, n);
  }

  /** The numerator of a sequence against itself is its spread. */
  lemma SelfNumerator(x: seq<real>, n: nat)
    requires n <= |x|
    ensures Numerator(RunningSums(x, x, n)) == Spread(x, n)
  {
  }

  /** The spread of a sequence is never negative. */
  lemma {:induction false} SpreadNonNegative(x: seq<real>, n: nat)
    requires n <= |x|
    ensures 0.0 <= Spread(x, n)
  {
    if n == 0 {
      assert Sum(x, n) == 0.0;
    } else {
      CentredDot(x, x, n);
      DotSelfNonNegative(Centred(x, n), n);
      SelfNumerator(x, n);
      NonNegativeFactor(n as real, Spread(x, n));
    }
  }

  lemma NonNegativeFactor(k: real, a: real)
    requires 0.0 < k && 0.0 <= Mul(k, a)
    ensures 0.0 <= a
  {
  }

  /** Cauchy–Schwarz for the centred sequences, in terms of the sums. */
  lemma {:induction false} CentredCauchySchwarz(x: seq<real>, y: seq<real>, n: nat)
    requires n <= |x| && n <= |y|
    ensures var m := n as real;
            Mul(Mul(m, Numerator(RunningSums(x, y, n))), Mul(m, Numerator(RunningSums(x, y, n))))
            <= Mul(Mul(m, Spread(x, n)), Mul(m, Spread(y, n)))
  {
    CauchySchwarz(Centred(x, n), Centred(y, n), n);
    CentredDot(x, y, n);
    CentredDot(x, x, n);
    CentredDot(y, y, n);
    SelfNumerator(x, n);
    SelfNumerator(y, n);
  }

  /** Cauchy–Schwarz for the Pearson sums: the squared numerator is at most the
      product of the two spreads, and both spreads are non-negative. */
  lemma {:induction false} PearsonCauchySchwarz(x: seq<real>, y: seq<real>, n: nat)
    requires n <= |x| && n <= |y|
    ensures var s := RunningSums(x, y, n);
            0.0 <= SpreadX(s) && 0.0 <= SpreadY(s) && Mul(Numerator(s), Numerator(s)) <= SpreadProduct(s)
  {
    var s := RunningSums(x, y, n);
    SpreadNonNegative(x, n);
    SpreadNonNegative(y, n);
    SpreadsOfRunningSums(x, y, n);
    if n == 0 {
      EmptySums(x, y, n);
      ZeroSums(s);
    } else {
      ScaledPearsonCauchySchwarz(x, y, n);
    }
  }

  lemma SpreadsOfRunningSums(x: seq<real>, y: seq<real>, n: nat)
    requires n <= |x| && n <= |y|
    ensures SpreadX(RunningSums(x, y, n)) == Spread(x, n) && SpreadY(RunningSums(x, y, n)) == Spread(y, n)
  {
  }

  lemma EmptySums(x: seq<real>, y: seq<real>, n: nat)
    requires n == 0
    ensures var s := RunningSums(x, y, n);
            s.n == 0.0 && s.sumX == 0.0 && s.sumY == 0.0
  {
  }

  /** With no elements, the numerator and both spreads are 0. */
  lemma ZeroSums(s: PearsonSums)
    requires s.n == 0.0 && s.sumX == 0.0 && s.sumY == 0.0
    ensures Numerator(s) == 0.0 && SpreadX(s) == 0.0 && SpreadY(s) == 0.0
  {
  }

  lemma {:induction false} ScaledPearsonCauchySchwarz(x: seq<real>, y: seq<real>, n: nat)
    requires 0 < n && n <= |x| && n <= |y|
    ensures var num := Numerator(RunningSums(x, y, n));
            Mul(num, num) <= Mul(Spread(x, n), Spread(y, n))
  {
    CentredCauchySchwarz(x, y, n);
    ScaledCauchySchwarz(n as real, Numerator(RunningSums(x, y, n)), Spread(x, n), Spread(y, n));
  }

  lemma ScaledCauchySchwarz(m: real, a: real, b: real, c: real)
    requires 0.0 < m && Mul(Mul(m, a), Mul(m, a)) <= Mul(Mul(m, b), Mul(m, c))
    ensures Mul(a, a) <= Mul(b, c)
  {
    assert Mul(Mul(m, a), Mul(m, a)) == Mul(Mul(m, m), Mul(a, a));
    assert Mul(Mul(m, b), Mul(m, c)) == Mul(Mul(m, m), Mul(b, c));
    PositiveSquare(m);
    ScaledInequality(Mul(a, a), Mul(b, c), Mul(m, m));
  }

  lemma PositiveSquare(m: real)
    requires 0.0 < m
    ensures 0.0 < Mul(m, m)
  {
    calc {
      Mul(m, m);
    ==
      m * m;
    >
      0.0;
    }
  }

  lemma ScaledInequality(a: real, b: real, k: real)
    requires 0.0 < k && Mul(k, a) <= Mul(k, b)
    ensures a <= b
  {
  }

  /** What IsSqrt says about one argument, with the square as a Mul term. */
  lemma SqrtOf(sqrt: real -> real, p: real)
    requires IsSqrt(sqrt) && 0.0 <= p
    ensures 0.0 <= sqrt(p) && Mul(sqrt(p), sqrt(p)) == p
  {
  }

  /** The square root of p*p is p, for p >= 0. */
  lemma SqrtOfSquare(sqrt: real -> real, p: real)
    requires IsSqrt(sqrt) && 0.0 <= p
    ensures sqrt(Mul(p, p)) == p
  {
    var d := sqrt(Mul(p, p));
    assert 0.0 <= d && d * d == p * p;
    SquareRootUnique(d, p);
  }

  /** A product of two non-negative reals is non-negative, and it is 0
      exactly when a factor is. */
  lemma ProductOfNonNegatives(a: real, b: real)
    requires 0.0 <= a && 0.0 <= b
    ensures 0.0 <= Mul(a, b)
    ensures Mul(a, b) == 0.0 <==> a == 0.0 || b == 0.0
  {
  }

  /** The sentinel: the denominator sqrt(spread(x) * spread(y)) is 0 exactly
      when one of the spreads is 0, and then corr returns 0. */
  lemma {:induction false} CorrelationZeroDenominator(x: seq<real>, y: seq<real>, sqrt: real -> real)
    requires |x| <= |y| && IsSqrt(sqrt)
    ensures sqrt(SpreadProduct(RunningSums(x, y, |x|))) == 0.0 <==> (Spread(x, |x|) == 0.0 || Spread(y, |x|) == 0.0)
    ensures Spread(x, |x|) == 0.0 || Spread(y, |x|) == 0.0 ==> Correlation(x, y, sqrt) == 0.0
  {
    var s := RunningSums(x, y, |x|);
    var X, Y := Spread(x, |x|), Spread(y, |x|);
    assert SpreadX(s) == X && SpreadY(s) == Y;
    SpreadNonNegative(x, |x|);
    SpreadNonNegative(y, |x|);
    ProductOfNonNegatives(X, Y);
    SqrtZeroIff(sqrt, Mul(X, Y));
  }

  /** A sequence whose first n elements all equal c has spread 0, so its
      correlation with anything is the sentinel 0. */
  lemma {:induction false} SpreadOfConstant(x: seq<real>, c: real, n: nat)
    requires n <= |x|
    requires forall i :: 0 <= i < n ==> x[i] == c
    ensures Sum(x, n) == Mul(n as real, c) && Dot(x, x, n) == Mul(n as real, Mul(c, c))
    ensures Spread(x, n) == 0.0
  {
    if n > 0 {
      SpreadOfConstant(x, c, n - 1);
      ConstantStep(Sum(x, n - 1), Dot(x, x, n - 1), (n - 1) as real, c, Sum(x, n), Dot(x, x, n), n as real);
    }
    ConstantSpread(Sum(x, n), Dot(x, x, n), n as real, c);
  }

  /** One step of SpreadOfConstant: one more element equal to c. */
  lemma ConstantStep(S: real, D: real, m: real, c: real, S': real, D': real, m': real)
    requires S == Mul(m, c) && D == Mul(m, Mul(c, c))
    requires S' == S + c && D' == D + Mul(c, c) && m' == m + 1.0
    ensures S' == Mul(m', c) && D' == Mul(m', Mul(c, c))
  {
  }

  lemma ConstantSpread(S: real, D: real, m: real, c: real)
    requires S == Mul(m, c) && D == Mul(m, Mul(c, c))
    ensures Mul(m, D) - Mul(S, S) == 0.0
  {
    calc {
      Mul(m, D) - Mul(S, S);
    ==
      m * (m * (c * c)) - (m * c) * (m * c);
    ==
      0.0;
    }
  }

  /** The Pearson formula lies in [-1, 1] whenever its sums satisfy
      Cauchy–Schwarz. */
  lemma PearsonInRange(s: PearsonSums, sqrt: real -> real)
    requires IsSqrt(sqrt) && 0.0 <= SpreadX(s) && 0.0 <= SpreadY(s)
    requires Mul(Numerator(s), Numerator(s)) <= SpreadProduct(s)
    ensures -1.0 <= Pearson(s, sqrt) <= 1.0
  {
    ProductOfNonNegatives(SpreadX(s), SpreadY(s));
    SqrtOf(sqrt, SpreadProduct(s));
    var den := sqrt(SpreadProduct(s));
    if den != 0.0 {
      QuotientInUnitRange(Numerator(s), den);
    }
  }

  /** |num| <= den follows from num^2 <= den^2 with den > 0. */
  lemma QuotientInUnitRange(num: real, den: real)
    requires 0.0 < den && Mul(num, num) <= Mul(den, den)
    ensures -1.0 <= num / den <= 1.0
  {
    var a := if num < 0.0 then -num else num;
    assert a * a == num * num;
    if den < a {
      SquareStrictlyIncreasing(den, a);
    }
    assert -den <= num <= den;
    assert num / den <= den / den;
    assert -den / den <= num / den;
  }

  /** corr lies in [-1, 1], as the comment on its return claims. */
  lemma {:induction false} CorrelationInRange(x: seq<real>, y: seq<real>, sqrt: real -> real)
    requires |x| <= |y| && IsSqrt(sqrt)
    ensures -1.0 <= Correlation(x, y, sqrt) <= 1.0
  {
    PearsonCauchySchwarz(x, y, |x|);
    PearsonInRange(RunningSums(x, y, |x|), sqrt);
  }

  /** The sums with the roles of x and y exchanged. */
  function Swap(s: PearsonSums): PearsonSums {
    PearsonSums(s.n, s.sumY, s.sumX, s.sumXY, s.sumY2, s.sumX2)
  }

  lemma PearsonSwap(s: PearsonSums, sqrt: real -> real)
    ensures Pearson(Swap(s), sqrt) == Pearson(s, sqrt)
  {
    var t := Swap(s);
    var sx, sy := SpreadX(s), SpreadY(s);
    assert SpreadX(t) == sy && SpreadY(t) == sx;
    assert Numerator(t) == Numerator(s);
    assert SpreadProduct(t) == SpreadProduct(s);
  }

  /** corr is symmetric in two histograms of the same length. */
  lemma {:induction false} CorrelationSymmetric(x: seq<real>, y: seq<real>, sqrt: real -> real)
    requires |x| == |y|
    ensures Correlation(x, y, sqrt) == Correlation(y, x, sqrt)
  {
    DotSymmetric(x, y, |x|);
    assert RunningSums(y, x, |x|) == Swap(RunningSums(x, y, |x|));
    PearsonSwap(RunningSums(x, y, |x|), sqrt);
  }

  lemma PearsonSelf(s: PearsonSums, sqrt: real -> real)
    requires IsSqrt(sqrt) && Numerator(s) == SpreadX(s) == SpreadY(s) && 0.0 <= SpreadX(s)
    ensures Pearson(s, sqrt) == if SpreadX(s) == 0.0 then 0.0 else 1.0
  {
    var p := SpreadX(s);
    SqrtOfSquare(sqrt, p);
    assert SpreadProduct(s) == Mul(p, p);
    assert Pearson(s, sqrt) == Ratio(p, p);
    RatioOfEqual(p);
  }

  lemma RatioOfEqual(p: real)
    ensures Ratio(p, p) == if p == 0.0 then 0.0 else 1.0
  {
  }

  /** A histogram correlates with itself with value 1, unless it is constant
      (spread 0), when the sentinel 0 is returned. */
  lemma {:induction false} CorrelationWithItself(x: seq<real>, sqrt: real -> real)
    requires IsSqrt(sqrt)
    ensures Correlation(x, x, sqrt) == if Spread(x, |x|) == 0.0 then 0.0 else 1.0
  {
    SpreadNonNegative(x, |x|);
    SelfNumerator(x, |x|);
    SpreadsOfRunningSums(x, x, |x|);
    PearsonSelf(RunningSums(x, x, |x|), sqrt);
  }

  /** The inputs histogramCorrelationGray is defined on: when the guard
      passes, both buffers are non-empty (histogramGray divides by their length). */
  predicate HistogramInputs(a: ImageDataLike, b: ImageDataLike) {
    SameSize(a, b) ==> 0 < |a.data| && 0 < |b.data|
  }

  /** The record histogramCorrelationGray returns, or the error assertSameSize throws. */
  function HistCorrRecord(a: ImageDataLike, b: ImageDataLike, sqrt: real -> real): (r: Result<ComparisonResult>)
    requires HistogramInputs(a, b)
    ensures r.Failure? <==> !SameSize(a, b)
    ensures r.Failure? ==> r.error == SizeMismatch(a.width, a.height, b.width, b.height)
    ensures r.Success? ==> r.value.metric == "HistCorr" && r.value.details == None
  {
    match AssertSameSize(a, b)
    case Fail(e) => Failure(e)
    case Pass =>
      var value := Correlation(Frequencies(a.data, GrayBins), Frequencies(b.data, GrayBins), sqrt);
      Success(ComparisonResult("HistCorr", value, None))
  }

  /** histogramCorrelationGray: the guard, both histograms, then corr. */
  method HistogramCorrelationGray(a: ImageDataLike, b: ImageDataLike, sqrt: real -> real)
    returns (r: Result<ComparisonResult>)
    requires HistogramInputs(a, b)
    ensures r == HistCorrRecord(a, b, sqrt)
  {
    var check := AssertSameSize(a, b);
    if check.Fail? {
      return Failure(check.error);
    }
    var ha := HistogramGray(a, GrayBins);
    var hb := HistogramGray(b, GrayBins);
    var value := Corr(ha, hb, sqrt);
    return Success(ComparisonResult("HistCorr", value, None));
  }

  /** Every 8-bit sample falls into one of the 256 bins, so each gray
      histogram sums to 1 and each of its entries lies in [0, 1]. */
  lemma {:induction false} GrayHistogramIsDistribution(img: ImageDataLike)
    requires 0 < |img.data|
    ensures Sum(Frequencies(img.data, GrayBins), GrayBins) == 1.0
    ensures forall v :: 0 <= v < GrayBins ==> 0.0 <= Frequencies(img.data, GrayBins)[v] <= 1.0
  {
    assert InBins(img.data, GrayBins);
    FrequenciesSumToOne(img.data, GrayBins);
    forall v | 0 <= v < GrayBins
      ensures 0.0 <= Frequencies(img.data, GrayBins)[v] <= 1.0
    {
      FrequencyInUnitInterval(img.data, GrayBins, v);
    }
  }

  /** The histogram correlation lies in [-1, 1]. */
  lemma {:induction false} HistogramCorrelationInRange(a: ImageDataLike, b: ImageDataLike, sqrt: real -> real)
    requires HistogramInputs(a, b) && IsSqrt(sqrt)
    ensures HistCorrRecord(a, b, sqrt).Success? ==> -1.0 <= HistCorrRecord(a, b, sqrt).value.value <= 1.0
  {
    if SameSize(a, b) {
      CorrelationInRange(Frequencies(a.data, GrayBins), Frequencies(b.data, GrayBins), sqrt);
    }
  }

  /** Swapping the images leaves the histogram correlation unchanged. */
  lemma {:induction false} HistogramCorrelationSymmetric(a: ImageDataLike, b: ImageDataLike, sqrt: real -> real)
    requires HistogramInputs(a, b)
    ensures HistogramInputs(b, a)
    ensures HistCorrRecord(a, b, sqrt).Success? <==> HistCorrRecord(b, a, sqrt).Success?
    ensures HistCorrRecord(a, b, sqrt).Success? ==>
              HistCorrRecord(a, b, sqrt).value == HistCorrRecord(b, a, sqrt).value
  {
    if SameSize(a, b) {
      CorrelationSymmetric(Frequencies(a.data, GrayBins), Frequencies(b.data, GrayBins), sqrt);
    }
  }

  /** The histogram of a solid image of value v is 1 in bin v and 0 elsewhere. */
  lemma {:induction false} SolidHistogram(img: ImageDataLike, v: Byte, w: nat)
    requires 0 < |img.data| && w < GrayBins
    requires forall i :: 0 <= i < |img.data| ==> img.data[i] == v
    ensures Frequencies(img.data, GrayBins)[w] == if w == v then 1.0 else 0.0
  {
    CountConstant(img.data, v, w);
    WholeShare(|img.data|);
  }

  /** Sum and dot products of the one-hot histograms of two solid images. */
  lemma {:induction false} OneHotSums(x: seq<real>, y: seq<real>, v: nat, w: nat, n: nat)
    requires n <= |x| && n <= |y|
    requires forall i :: 0 <= i < n ==> x[i] == if i == v then 1.0 else 0.0
    requires forall i :: 0 <= i < n ==> y[i] == if i == w then 1.0 else 0.0
    ensures Sum(x, n) == if v < n then 1.0 else 0.0
    ensures Dot(x, x, n) == if v < n then 1.0 else 0.0
    ensures Dot(x, y, n) == if v == w && v < n then 1.0 else 0.0
  {
    if n > 0 {
      OneHotSums(x, y, v, w, n - 1);
    }
  }

  /** Two solid images of the same size and the same value have one-hot
      histograms that coincide, so they correlate perfectly: value 1. */
  lemma {:induction false} SolidImagesSameValue(a: ImageDataLike, b: ImageDataLike, v: Byte, sqrt: real -> real)
    requires SameSize(a, b) && 0 < |a.data| && 0 < |b.data| && IsSqrt(sqrt)
    requires forall i :: 0 <= i < |a.data| ==> a.data[i] == v
    requires forall i :: 0 <= i < |b.data| ==> b.data[i] == v
    ensures HistCorrRecord(a, b, sqrt) == Success(ComparisonResult("HistCorr", 1.0, None))
  {
    var x, y := Frequencies(a.data, GrayBins), Frequencies(b.data, GrayBins);
    forall i | 0 <= i < GrayBins
      ensures x[i] == y[i] == if i == v then 1.0 else 0.0
    {
      SolidHistogram(a, v, i);
      SolidHistogram(b, v, i);
    }
    assert x == y;
    OneHotSums(x, x, v, v, GrayBins);
    assert Spread(x, GrayBins) == 255.0;
    CorrelationWithItself(x, sqrt);
  }

  /** Two solid images of the same size and different values have disjoint
      one-hot histograms, whose correlation is -1/255 (not 0). */
  lemma {:induction false} SolidImagesDifferentValues(a: ImageDataLike, b: ImageDataLike, v: Byte, w: Byte, sqrt: real -> real)
    requires SameSize(a, b) && 0 < |a.data| && 0 < |b.data| && IsSqrt(sqrt) && v != w
    requires forall i :: 0 <= i < |a.data| ==> a.data[i] == v
    requires forall i :: 0 <= i < |b.data| ==> b.data[i] == w
    ensures HistCorrRecord(a, b, sqrt) == Success(ComparisonResult("HistCorr", -1.0 / 255.0, None))
  {
    var x, y := Frequencies(a.data, GrayBins), Frequencies(b.data, GrayBins);
    forall i | 0 <= i < GrayBins
      ensures x[i] == (if i == v then 1.0 else 0.0) && y[i] == (if i == w then 1.0 else 0.0)
    {
      SolidHistogram(a, v, i);
      SolidHistogram(b, w, i);
    }
    OneHotSums(x, y, v, w, GrayBins);
    OneHotSums(y, x, w, v, GrayBins);
    assert RunningSums(x, y, GrayBins) == PearsonSums(256.0, 1.0, 1.0, 0.0, 1.0, 1.0);
    DisjointOneHotPearson(RunningSums(x, y, GrayBins), sqrt);
  }

  /** The sums of two disjoint one-hot histograms of 256 bins give corr -1/255. */
  lemma DisjointOneHotPearson(s: PearsonSums, sqrt: real -> real)
    requires IsSqrt(sqrt) && s == PearsonSums(256.0, 1.0, 1.0, 0.0, 1.0, 1.0)
    ensures Pearson(s, sqrt) == -1.0 / 255.0
  {
    assert Numerator(s) == -1.0 && SpreadX(s) == 255.0 && SpreadY(s) == 255.0;
    var den := sqrt(255.0 * 255.0);
    assert 0.0 <= den && den * den == 255.0 * 255.0;
    SquareRootUnique(den, 255.0);
  }
}
