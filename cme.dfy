/** compareImages of src/cme.ts: the size check on the two loaded matrices,
    then MSE, SSIM, histogram correlation and mean absolute difference, in
    that order. SSIM comes from an outside library and enters as a value. */
module Cme {
  import opened Types
  import opened JsMath
  import opened Counting
  import opened CmeMatrix
  import opened CmeErrors
  import opened CmeHistogram

  /** One row of the result: { metric, value }. */
  datatype Entry = Entry(metric: string, value: JsNumber)

  /** A matrix as loadImageAsMatrix delivers it after resize(256, 256) and
      ensureAlpha: non-empty, and every pixel has at least the colour channels. */
  predicate Loaded(m: Matrix) {
    ValidMatrix(m) && 0 < m.width && 0 < m.height && 3 <= m.channels
  }

  /** Two loaded matrices with the same number of channels per pixel. */
  predicate LoadedPair(m1: Matrix, m2: Matrix) {
    Loaded(m1) && Loaded(m2) && m1.channels == m2.channels
  }

  /** The colour samples of a loaded matrix lie in [0, 1]. */
  lemma LoadedRgb(m: Matrix)
    requires Loaded(m)
    ensures 0 < |m.pixels| && RgbInUnit(m.pixels)
  {
    assert 0 < m.width * m.height;
  }

  /** buildHistogram(img.pixels) with the default 32 bins. */
  function HistogramOf(m: Matrix): (h: seq<real>)
    requires Loaded(m)
    ensures |h| == DefaultBins
  {
    LoadedRgb(m);
    Frequencies(BinIndices(m.pixels, DefaultBins), DefaultBins)
  }

  /** What compareImages resolves to, or the error it throws. */
  function Compare(m1: Matrix, m2: Matrix, ssim: real, sqrt: real -> real): Result<seq<Entry>>
    requires LoadedPair(m1, m2)
  {
    if m1.width != m2.width || m1.height != m2.height then Failure(NotMatchingAfterPreprocessing)
    else
      LoadedRgb(m1);
      Success([Entry("MSE", Finite(MeanError(Squared, m1.pixels, m2.pixels))),
               Entry("SSIM", Finite(ssim)),
               Entry("HistCorr", CentredCorrelation(HistogramOf(m1), HistogramOf(m2), sqrt)),
               Entry("AbsDiffMean", Finite(MeanError(Absolute, m1.pixels, m2.pixels)))])
  }

  /** compareImages after both matrices are loaded: reject differing sizes,
      then run the four metrics and collect them. */
  method CompareImages(m1: Matrix, m2: Matrix, ssim: real, sqrt: real -> real) returns (r: Result<seq<Entry>>)
    requires LoadedPair(m1, m2)
    ensures r == Compare(m1, m2, ssim, sqrt)
  {
    if m1.width != m2.width || m1.height != m2.height {
      return Failure(NotMatchingAfterPreprocessing);
    }
    LoadedRgb(m1);
    LoadedRgb(m2);
    var mseVal := Mse(m1.pixels, m2.pixels);
    var absDiffVal := AbsDiffMean(m1.pixels, m2.pixels);
    var h1 := BuildHistogram(m1.pixels, DefaultBins);
    var h2 := BuildHistogram(m2.pixels, DefaultBins);
    var histCorr := HistogramCorrelation(h1, h2, sqrt);
    r := Success([Entry("MSE", Finite(mseVal)),
                  Entry("SSIM", Finite(ssim)),
                  Entry("HistCorr", histCorr),
                  Entry("AbsDiffMean", Finite(absDiffVal))]);
  }

  /** The outcome of compareImages: the error exactly when the widths or the
      heights differ; otherwise four entries named MSE, SSIM, HistCorr and
      AbsDiffMean in that order, where MSE and AbsDiffMean are finite values
      in [0, channels], SSIM is the library's value, and HistCorr is never
      infinite, NaN exactly when a histogram is flat, and otherwise in [-1, 1]. */
  lemma CompareOutcome(m1: Matrix, m2: Matrix, ssim: real, sqrt: real -> real)
    requires LoadedPair(m1, m2) && IsSqrt(sqrt)
    ensures Compare(m1, m2, ssim, sqrt).Failure? <==> m1.width != m2.width || m1.height != m2.height
    ensures Compare(m1, m2, ssim, sqrt).Failure? ==> Compare(m1, m2, ssim, sqrt).error == NotMatchingAfterPreprocessing
    ensures Compare(m1, m2, ssim, sqrt).Success? ==>
              var e := Compare(m1, m2, ssim, sqrt).value;
              var s := CentredSumsOf(HistogramOf(m1), HistogramOf(m2));
              |e| == 4 &&
              e[0].metric == "MSE" && e[1].metric == "SSIM" && e[2].metric == "HistCorr" && e[3].metric == "AbsDiffMean" &&
              e[0].value.Finite? && 0.0 <= e[0].value.value <= m1.channels as real &&
              e[1].value == Finite(ssim) &&
              !e[2].value.Infinity? &&
              (e[2].value.NaN? <==> s.den1 == 0.0 || s.den2 == 0.0) &&
              (e[2].value.Finite? ==> -1.0 <= e[2].value.value <= 1.0) &&
              e[3].value.Finite? && 0.0 <= e[3].value.value <= m1.channels as real
  {
    if m1.width == m2.width && m1.height == m2.height {
      LoadedRgb(m1);
      MeanErrorAtMostChannels(Squared, m1.pixels, m2.pixels, m1.channels);
      MeanErrorAtMostChannels(Absolute, m1.pixels, m2.pixels, m1.channels);
      CentredCorrelationCases(HistogramOf(m1), HistogramOf(m2), sqrt);
    }
  }

  /** An image compared with itself: MSE and AbsDiffMean are 0, and HistCorr
      is 1 unless the histogram is flat, where it is NaN. */
  lemma CompareWithItself(m: Matrix, ssim: real, sqrt: real -> real)
    requires Loaded(m) && IsSqrt(sqrt)
    ensures var h := HistogramOf(m);
            Compare(m, m, ssim, sqrt) ==
              Success([Entry("MSE", Finite(0.0)),
                       Entry("SSIM", Finite(ssim)),
                       Entry("HistCorr", if CentredSumsOf(h, h).den1 == 0.0 then NaN else Finite(1.0)),
                       Entry("AbsDiffMean", Finite(0.0))])
  {
    LoadedRgb(m);
    MeanErrorZeroIff(Squared, m.pixels, m.pixels);
    MeanErrorZeroIff(Absolute, m.pixels, m.pixels);
    CentredCorrelationWithItself(HistogramOf(m), sqrt);
  }

  /** On images of the same size, MSE is 0 exactly when the two pixel
      matrices are equal, and so is AbsDiffMean. */
  lemma CompareZeroIffEqual(m1: Matrix, m2: Matrix, ssim: real, sqrt: real -> real)
    requires LoadedPair(m1, m2) && m1.width == m2.width && m1.height == m2.height
    ensures Compare(m1, m2, ssim, sqrt).Success?
    ensures Compare(m1, m2, ssim, sqrt).value[0].value == Finite(0.0) <==> m1.pixels == m2.pixels
    ensures Compare(m1, m2, ssim, sqrt).value[3].value == Finite(0.0) <==> m1.pixels == m2.pixels
  {
    LoadedRgb(m1);
    MeanErrorZeroIff(Squared, m1.pixels, m2.pixels);
    MeanErrorZeroIff(Absolute, m1.pixels, m2.pixels);
    SamplewiseEqual(m1.pixels, m2.pixels);
  }

  /** Swapping the two images keeps success or failure and leaves the MSE,
      HistCorr and AbsDiffMean entries unchanged, whatever SSIM reports on
      either side. */
  lemma CompareSymmetric(m1: Matrix, m2: Matrix, ssim12: real, ssim21: real, sqrt: real -> real)
    requires LoadedPair(m1, m2)
    ensures Compare(m1, m2, ssim12, sqrt).Success? <==> Compare(m2, m1, ssim21, sqrt).Success?
    ensures Compare(m1, m2, ssim12, sqrt).Success? ==>
              var e, f := Compare(m1, m2, ssim12, sqrt).value, Compare(m2, m1, ssim21, sqrt).value;
              e[0] == f[0] && e[2] == f[2] && e[3] == f[3]
  {
    if m1.width == m2.width && m1.height == m2.height {
      LoadedRgb(m1);
      MeanErrorSymmetric(Squared, m1.pixels, m2.pixels);
      MeanErrorSymmetric(Absolute, m1.pixels, m2.pixels);
      CentredCorrelationSymmetric(HistogramOf(m1), HistogramOf(m2), sqrt);
    }
  }
}
