/** meanAbsDiffGray (src/metrics/adsdiff.ts): the mean absolute difference of
    two grayscale buffers over their first width*height samples, after the
    size guard. */
module AbsDiffMetric {
  import opened Types
  import opened JsMath
  import opened Image

  /** |a[0]-b[0]| + ... + |a[n-1]-b[n-1]|, an exact integer. Each term is at most 255. */
  function SumAbsDiff(a: seq<Byte>, b: seq<Byte>, n: nat): (s: int)
    requires n <= |a| && n <= |b|
    ensures 0 <= s <= 255 * n
  {
    if n == 0 then 0 else SumAbsDiff(a, b, n - 1) + Abs(a[n - 1] as int - b[n - 1] as int)
  }

  /** The record meanAbsDiffGray returns, or the error assertSameSize throws. */
  function MeanAbsDiff(a: ImageDataLike, b: ImageDataLike): (r: Result<ComparisonResult>)
    requires PointwiseInputs(a, b)
    ensures r.Failure? <==> !SameSize(a, b)
    ensures r.Failure? ==> r.error == SizeMismatch(a.width, a.height, b.width, b.height)
    ensures r.Success? ==> r.value.metric == "AbsDiffMean" && r.value.details == None
    ensures r.Success? ==> 0.0 <= r.value.value <= 255.0
  {
    match AssertSameSize(a, b)
    case Fail(e) => Failure(e)
    case Pass =>
      var n := Area(a);
      var s := SumAbsDiff(a.data, b.data, n);
      MeanBound(s, n, 255);
      Success(ComparisonResult("AbsDiffMean", s as real / n as real, None))
  }

  /** meanAbsDiffGray: the guard, then one pass adding the absolute
      differences of the first width*height samples. */
  method MeanAbsDiffGray(a: ImageDataLike, b: ImageDataLike) returns (r: Result<ComparisonResult>)
    requires PointwiseInputs(a, b)
    ensures r == MeanAbsDiff(a, b)
  {
    var check := AssertSameSize(a, b);
    if check.Fail? {
      return Failure(check.error);
    }
    var sum := 0;
    var n := a.width * a.height;
    for i := 0 to n
      invariant sum == SumAbsDiff(a.data, b.data, i)
    {
      sum := sum + Abs(a.data[i] as int - b.data[i] as int);
    }
    return Success(ComparisonResult("AbsDiffMean", sum as real / n as real, None));
  }

  lemma {:induction false} SumAbsDiffZeroIff(a: seq<Byte>, b: seq<Byte>, n: nat)
    requires n <= |a| && n <= |b|
    ensures SumAbsDiff(a, b, n) == 0 <==> forall i :: 0 <= i < n ==> a[i] == b[i]
  {
    if n > 0 {
      SumAbsDiffZeroIff(a, b, n - 1);
    }
  }

  lemma {:induction false} SumAbsDiffSymmetric(a: seq<Byte>, b: seq<Byte>, n: nat)
    requires n <= |a| && n <= |b|
    ensures SumAbsDiff(a, b, n) == SumAbsDiff(b, a, n)
  {
    if n > 0 {
      SumAbsDiffSymmetric(a, b, n - 1);
    }
  }

  /** The mean absolute difference of two same-size images is 0 exactly when
      they agree on their first width*height samples. */
  lemma MeanAbsDiffZeroIff(a: ImageDataLike, b: ImageDataLike)
    requires PointwiseInputs(a, b) && SameSize(a, b)
    ensures MeanAbsDiff(a, b).value.value == 0.0 <==> forall i :: 0 <= i < Area(a) ==> a.data[i] == b.data[i]
  {
    SumAbsDiffZeroIff(a.data, b.data, Area(a));
  }

  /** Swapping the operands swaps the failure pairs and leaves the record unchanged. */
  lemma MeanAbsDiffSymmetric(a: ImageDataLike, b: ImageDataLike)
    requires PointwiseInputs(a, b)
    ensures PointwiseInputs(b, a)
    ensures MeanAbsDiff(a, b).Success? <==> MeanAbsDiff(b, a).Success?
    ensures MeanAbsDiff(a, b).Success? ==> MeanAbsDiff(a, b).value == MeanAbsDiff(b, a).value
  {
    if SameSize(a, b) {
      SumAbsDiffSymmetric(a.data, b.data, Area(a));
    }
  }
}
