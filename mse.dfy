/** mseGray (src/metrics/mse.ts): the mean squared error of two grayscale
    buffers over their first width*height samples, after the size guard. */
module MseMetric {
  import opened Types
  import opened Image
  import opened JsMath

  /** (a[0]-b[0])^2 + ... + (a[n-1]-b[n-1])^2, an exact integer. Each term is
      at most 255^2. */
  function SumSquaredDiff(a: seq<Byte>, b: seq<Byte>, n: nat): (s: int)
    requires n <= |a| && n <= |b|
    ensures 0 <= s <= 65025 * n
  {
    if n == 0 then 0
    else
      var d := a[n - 1] as int - b[n - 1] as int;
      assert 0 <= d * d <= 65025 by {
        SquareOfByteDifference(d);
      }
      SumSquaredDiff(a, b, n - 1) + d * d
  }

  lemma SquareOfByteDifference(d: int)
    requires -255 <= d <= 255
    ensures 0 <= d * d <= 65025
  {
    if d < 0 {
      assert d * d == (-d) * (-d);
      SquareOfByte(-d);
    } else {
      SquareOfByte(d);
    }
  }

  lemma SquareOfByte(e: int)
    requires 0 <= e <= 255
    ensures 0 <= e * e <= 65025
  {
    var f := 255 - e;
    assert 0 <= e * f;
    assert e * e + e * f == 255 * e;
  }

  /** The record mseGray returns, or the error assertSameSize throws. */
  function Mse(a: ImageDataLike, b: ImageDataLike): (r: Result<ComparisonResult>)
    requires PointwiseInputs(a, b)
    ensures r.Failure? <==> !SameSize(a, b)
    ensures r.Failure? ==> r.error == SizeMismatch(a.width, a.height, b.width, b.height)
    ensures r.Success? ==> r.value.metric == "MSE" && r.value.details == None
    ensures r.Success? ==> 0.0 <= r.value.value <= 65025.0
  {
    match AssertSameSize(a, b)
    case Fail(e) => Failure(e)
    case Pass =>
      var n := Area(a);
      var s := SumSquaredDiff(a.data, b.data, n);
      MeanBound(s, n, 65025);
      Success(ComparisonResult("MSE", s as real / n as real, None))
  }

  /** mseGray: the guard runs before anything is read; then one pass adds the
      squared differences of the first width*height samples. */
  method MseGray(a: ImageDataLike, b: ImageDataLike) returns (r: Result<ComparisonResult>)
    requires PointwiseInputs(a, b)
    ensures r == Mse(a, b)
  {
    var check := AssertSameSize(a, b);
    if check.Fail? {
      return Failure(check.error);
    }
    var sum := 0;
    var n := a.width * a.height;
    for i := 0 to n
      invariant sum == SumSquaredDiff(a.data, b.data, i)
    {
      var d := a.data[i] as int - b.data[i] as int;
      sum := sum + d * d;
    }
    return Success(ComparisonResult("MSE", sum as real / n as real, None));
  }

  lemma {:induction false} SumSquaredDiffZeroIff(a: seq<Byte>, b: seq<Byte>, n: nat)
    requires n <= |a| && n <= |b|
    ensures SumSquaredDiff(a, b, n) == 0 <==> forall i :: 0 <= i < n ==> a[i] == b[i]
  {
    if n > 0 {
      SumSquaredDiffZeroIff(a, b, n - 1);
      var d := a[n - 1] as int - b[n - 1] as int;
      assert d != 0 ==> d * d > 0;
    }
  }

  lemma {:induction false} SumSquaredDiffSymmetric(a: seq<Byte>, b: seq<Byte>, n: nat)
    requires n <= |a| && n <= |b|
    ensures SumSquaredDiff(a, b, n) == SumSquaredDiff(b, a, n)
  {
    if n > 0 {
      SumSquaredDiffSymmetric(a, b, n - 1);
      var d := a[n - 1] as int - b[n - 1] as int;
      assert d * d == (-d) * (-d);
    }
  }

  lemma {:induction false} SumSquaredDiffPrefix(a: seq<Byte>, b: seq<Byte>, a': seq<Byte>, b': seq<Byte>, n: nat)
    requires n <= |a| && n <= |b| && n <= |a'| && n <= |b'|
    requires a[..n] == a'[..n] && b[..n] == b'[..n]
    ensures SumSquaredDiff(a, b, n) == SumSquaredDiff(a', b', n)
  {
    if n > 0 {
      assert a[n - 1] == a[..n][n - 1] == a'[n - 1];
      assert b[n - 1] == b[..n][n - 1] == b'[n - 1];
      assert a[..n - 1] == a[..n][..n - 1] && a'[..n - 1] == a'[..n][..n - 1];
      assert b[..n - 1] == b[..n][..n - 1] && b'[..n - 1] == b'[..n][..n - 1];
      SumSquaredDiffPrefix(a, b, a', b', n - 1);
    }
  }

  /** The MSE of two same-size images is 0 exactly when they agree on their
      first width*height samples; in particular an image has MSE 0 with itself. */
  lemma MseZeroIff(a: ImageDataLike, b: ImageDataLike)
    requires PointwiseInputs(a, b) && SameSize(a, b)
    ensures Mse(a, b).value.value == 0.0 <==> forall i :: 0 <= i < Area(a) ==> a.data[i] == b.data[i]
  {
    SumSquaredDiffZeroIff(a.data, b.data, Area(a));
  }

  /** Swapping the operands swaps the failure pairs and leaves the record unchanged. */
  lemma MseSymmetric(a: ImageDataLike, b: ImageDataLike)
    requires PointwiseInputs(a, b)
    ensures PointwiseInputs(b, a)
    ensures Mse(a, b).Success? <==> Mse(b, a).Success?
    ensures Mse(a, b).Success? ==> Mse(a, b).value == Mse(b, a).value
  {
    if SameSize(a, b) {
      SumSquaredDiffSymmetric(a.data, b.data, Area(a));
    }
  }

  /** Only the first width*height samples of each buffer are read: buffers
      that agree there give the same result. */
  lemma MseReadsOnlyArea(a: ImageDataLike, b: ImageDataLike, a': ImageDataLike, b': ImageDataLike)
    requires PointwiseInputs(a, b) && PointwiseInputs(a', b')
    requires a.width == a'.width && a.height == a'.height
    requires b.width == b'.width && b.height == b'.height
    requires a.data[..Area(a)] == a'.data[..Area(a)] && b.data[..Area(b)] == b'.data[..Area(b)]
    ensures Mse(a, b) == Mse(a', b')
  {
    if SameSize(a, b) {
      SumSquaredDiffPrefix(a.data, b.data, a'.data, b'.data, Area(a));
    }
  }
}
