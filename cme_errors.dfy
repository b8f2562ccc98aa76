/** mse and absDiffMean of src/cme.ts: one running sum over every channel of
    every pixel, divided by the number of pixels (not of samples). The two
    differ only in what each sample difference contributes. */
module CmeErrors {
  import opened JsMath
  import opened Sums
  import opened CmeMatrix

  /** What one sample difference d adds to the sum: d*d in mse, |d| in absDiffMean. */
  datatype Penalty = Squared | Absolute

  function Cost(pen: Penalty, d: real): real {
    match pen
    case Squared => Mul(d, d)
    case Absolute => AbsReal(d)
  }

  /** The loops read p2[c] for every channel c of p1, and img2[i] for every
      pixel i of img1. */
  predicate Comparable(img1: seq<seq<real>>, img2: seq<seq<real>>) {
    |img1| <= |img2| && forall i :: 0 <= i < |img1| ==> |img1[i]| <= |img2[i]|
  }

  /** The contributions of the first n channels of two pixels. */
  function PixelError(pen: Penalty, p: seq<real>, q: seq<real>, n: nat): real
    requires n <= |p| && n <= |q|
  {
    if n == 0 then 0.0 else PixelError(pen, p, q, n - 1) + Cost(pen, p[n - 1] - q[n - 1])
  }

  /** The contributions of every channel of the first k pixels. */
  function ErrorSum(pen: Penalty, img1: seq<seq<real>>, img2: seq<seq<real>>, k: nat): real
    requires Comparable(img1, img2) && k <= |img1|
  {
    if k == 0 then 0.0
    else ErrorSum(pen, img1, img2, k - 1) + PixelError(pen, img1[k - 1], img2[k - 1], |img1[k - 1]|)
  }

  /** The value of mse (Squared) or absDiffMean (Absolute). */
  function MeanError(pen: Penalty, img1: seq<seq<real>>, img2: seq<seq<real>>): real
    requires Comparable(img1, img2) && 0 < |img1|
  {
    ErrorSum(pen, img1, img2, |img1|) / |img1| as real
  }

  /** mse: add diff*diff for every channel of every pixel, divide by the pixel count. */
  method Mse(img1: seq<seq<real>>, img2: seq<seq<real>>) returns (r: real)
    requires Comparable(img1, img2) && 0 < |img1|
    ensures r == MeanError(Squared, img1, img2)
  {
    var sum := 0.0;
    for i := 0 to |img1|
      invariant sum == ErrorSum(Squared, img1, img2, i)
    {
      var p1, p2 := img1[i], img2[i];
      for c := 0 to |p1|
        invariant sum == ErrorSum(Squared, img1, img2, i) + PixelError(Squared, p1, p2, c)
      {
        var diff := p1[c] - p2[c];
        sum := sum + diff * diff;
      }
    }
    r := sum / |img1| as real;
  }

  /** absDiffMean: add |p1[c] - p2[c]| for every channel of every pixel,
      divide by the pixel count. */
  method AbsDiffMean(img1: seq<seq<real>>, img2: seq<seq<real>>) returns (r: real)
    requires Comparable(img1, img2) && 0 < |img1|
    ensures r == MeanError(Absolute, img1, img2)
  {
    var sum := 0.0;
    for i := 0 to |img1|
      invariant sum == ErrorSum(Absolute, img1, img2, i)
    {
      var p1, p2 := img1[i], img2[i];
      for c := 0 to |p1|
        invariant sum == ErrorSum(Absolute, img1, img2, i) + PixelError(Absolute, p1, p2, c)
      {
        sum := sum + AbsReal(p1[c] - p2[c]);
      }
    }
    r := sum / |img1| as real;
  }

  /** Each contribution is non-negative, 0 exactly for equal samples, the
      same for d and -d, and at most 1 for samples in [0, 1]. */
  lemma CostProperties(pen: Penalty, p: real, q: real)
    ensures 0.0 <= Cost(pen, p - q)
    ensures Cost(pen, p - q) == 0.0 <==> p == q
    ensures Cost(pen, p - q) == Cost(pen, q - p)
    ensures 0.0 <= p <= 1.0 && 0.0 <= q <= 1.0 ==> Cost(pen, p - q) <= 1.0
  {
    if pen == Squared {
      SquareProperties(p - q);
      assert Mul(q - p, q - p) == Mul(p - q, p - q) by {
        calc {
          Mul(q - p, q - p);
        ==
          (-(p - q)) * (-(p - q));
        ==
          (p - q) * (p - q);
        }
      }
    }
  }

  /** Two sequences of sequences with the same shape. */
  predicate SameShape(img1: seq<seq<real>>, img2: seq<seq<real>>) {
    |img1| == |img2| && forall i :: 0 <= i < |img1| ==> |img1[i]| == |img2[i]|
  }

  lemma {:induction false} PixelErrorZeroIff(pen: Penalty, p: seq<real>, q: seq<real>, n: nat)
    requires n <= |p| && n <= |q|
    ensures 0.0 <= PixelError(pen, p, q, n)
    ensures PixelError(pen, p, q, n) == 0.0 <==> forall c :: 0 <= c < n ==> p[c] == q[c]
  {
    if n > 0 {
      PixelErrorZeroIff(pen, p, q, n - 1);
      CostProperties(pen, p[n - 1], q[n - 1]);
    }
  }

  lemma {:induction false} ErrorSumZeroIff(pen: Penalty, img1: seq<seq<real>>, img2: seq<seq<real>>, k: nat)
    requires Comparable(img1, img2) && k <= |img1|
    ensures 0.0 <= ErrorSum(pen, img1, img2, k)
    ensures ErrorSum(pen, img1, img2, k) == 0.0 <==>
              forall i, c :: 0 <= i < k && 0 <= c < |img1[i]| ==> img1[i][c] == img2[i][c]
  {
    if k > 0 {
      ErrorSumZeroIff(pen, img1, img2, k - 1);
      PixelErrorZeroIff(pen, img1[k - 1], img2[k - 1], |img1[k - 1]|);
    }
  }

  /** mse and absDiffMean are never negative, and they are 0 exactly when the
      matrices agree on every sample; in particular 0 for identical inputs. */
  lemma MeanErrorZeroIff(pen: Penalty, img1: seq<seq<real>>, img2: seq<seq<real>>)
    requires Comparable(img1, img2) && 0 < |img1|
    ensures 0.0 <= MeanError(pen, img1, img2)
    ensures MeanError(pen, img1, img2) == 0.0 <==>
              forall i, c :: 0 <= i < |img1| && 0 <= c < |img1[i]| ==> img1[i][c] == img2[i][c]
  {
    ErrorSumZeroIff(pen, img1, img2, |img1|);
  }

  /** Matrices of the same shape agree on every sample exactly when they are equal. */
  lemma SamplewiseEqual(img1: seq<seq<real>>, img2: seq<seq<real>>)
    requires SameShape(img1, img2)
    ensures (forall i, c :: 0 <= i < |img1| && 0 <= c < |img1[i]| ==> img1[i][c] == img2[i][c]) <==> img1 == img2
  {
    if forall i, c :: 0 <= i < |img1| && 0 <= c < |img1[i]| ==> img1[i][c] == img2[i][c] {
      forall i | 0 <= i < |img1|
        ensures img1[i] == img2[i]
      {
      }
    }
  }

  lemma {:induction false} PixelErrorSymmetric(pen: Penalty, p: seq<real>, q: seq<real>, n: nat)
    requires n <= |p| && n <= |q|
    ensures PixelError(pen, p, q, n) == PixelError(pen, q, p, n)
  {
    if n > 0 {
      PixelErrorSymmetric(pen, p, q, n - 1);
      CostProperties(pen, p[n - 1], q[n - 1]);
    }
  }

  lemma {:induction false} ErrorSumSymmetric(pen: Penalty, img1: seq<seq<real>>, img2: seq<seq<real>>, k: nat)
    requires SameShape(img1, img2) && k <= |img1|
    ensures Comparable(img1, img2) && Comparable(img2, img1)
    ensures ErrorSum(pen, img1, img2, k) == ErrorSum(pen, img2, img1, k)
  {
    if k > 0 {
      ErrorSumSymmetric(pen, img1, img2, k - 1);
      PixelErrorSymmetric(pen, img1[k - 1], img2[k - 1], |img1[k - 1]|);
    }
  }

  /** mse and absDiffMean are symmetric in matrices of the same shape. */
  lemma MeanErrorSymmetric(pen: Penalty, img1: seq<seq<real>>, img2: seq<seq<real>>)
    requires SameShape(img1, img2) && 0 < |img1|
    ensures Comparable(img1, img2) && Comparable(img2, img1)
    ensures MeanError(pen, img1, img2) == MeanError(pen, img2, img1)
  {
    ErrorSumSymmetric(pen, img1, img2, |img1|);
  }

  lemma {:induction false} PixelErrorAtMost(pen: Penalty, p: seq<real>, q: seq<real>, n: nat)
    requires n <= |p| && n <= |q|
    requires forall c :: 0 <= c < n ==> 0.0 <= p[c] <= 1.0 && 0.0 <= q[c] <= 1.0
    ensures PixelError(pen, p, q, n) <= n as real
  {
    if n > 0 {
      PixelErrorAtMost(pen, p, q, n - 1);
      CostProperties(pen, p[n - 1], q[n - 1]);
    }
  }

  lemma {:induction false} ErrorSumAtMost(pen: Penalty, img1: seq<seq<real>>, img2: seq<seq<real>>, channels: nat, k: nat)
    requires UnitSamples(img1, channels) && UnitSamples(img2, channels) && |img1| <= |img2| && k <= |img1|
    ensures Comparable(img1, img2)
    ensures ErrorSum(pen, img1, img2, k) <= Mul(k as real, channels as real)
  {
    if k > 0 {
      ErrorSumAtMost(pen, img1, img2, channels, k - 1);
      PixelErrorAtMost(pen, img1[k - 1], img2[k - 1], channels);
      AddPixelBound(ErrorSum(pen, img1, img2, k - 1), PixelError(pen, img1[k - 1], img2[k - 1], channels),
                    (k - 1) as real, channels as real);
    }
  }

  lemma AddPixelBound(s: real, p: real, k: real, ch: real)
    requires s <= Mul(k, ch) && p <= ch
    ensures s + p <= Mul(k + 1.0, ch)
  {
  }

  /** Both values lie in [0, channels], not [0, 1]: they divide a sum over
      every sample by the number of pixels. */
  lemma MeanErrorAtMostChannels(pen: Penalty, img1: seq<seq<real>>, img2: seq<seq<real>>, channels: nat)
    requires UnitSamples(img1, channels) && UnitSamples(img2, channels) && 0 < |img1| <= |img2|
    ensures Comparable(img1, img2)
    ensures 0.0 <= MeanError(pen, img1, img2) <= channels as real
  {
    ErrorSumAtMost(pen, img1, img2, channels, |img1|);
    ErrorSumZeroIff(pen, img1, img2, |img1|);
    MeanAtMost(ErrorSum(pen, img1, img2, |img1|), |img1| as real, channels as real);
  }

  lemma MeanAtMost(s: real, n: real, ch: real)
    requires 0.0 < n && s <= Mul(n, ch)
    ensures s / n <= ch
  {
    calc {
      s / n;
    <=
      (n * ch) / n;
    ==
      ch;
    }
  }

  /** The bound is reached: a transparent black pixel against an opaque
      white one differs by 1 in each of its 4 channels, so mse and
      absDiffMean are both 4, the channel count. */
  lemma ChannelBoundReached(pen: Penalty)
    ensures MeanError(pen, [[0.0, 0.0, 0.0, 0.0]], [[1.0, 1.0, 1.0, 1.0]]) == 4.0
  {
    var p, q := [0.0, 0.0, 0.0, 0.0], [1.0, 1.0, 1.0, 1.0];
    assert Cost(pen, p[0] - q[0]) == 1.0;
    assert PixelError(pen, p, q, 4) == 4.0;
  }
}
