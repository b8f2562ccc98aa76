# ts-image-compare metric engine in Dafny

This project models the metric engine of ts-image-compare: the arithmetic that
runs over pixel buffers once a codec has decoded them. It proves what each metric
promises about those buffers.

The model has two pipelines.

**The grayscale metrics** (`src/metrics/*.ts` with `src/utils/image.ts`):
- `toGrayscaleFromRGBA` turns RGBA into Rec. 601 luma.
- The red-channel extraction loop of `loadImageGray`.
- The `assertSameSize` guard.
- `mseGray` and `meanAbsDiffGray`: exact integer sums divided by `width*height`.
- `histogramGray` builds a 256-bin frequency histogram.
- `corr`: Pearson correlation with a 0 sentinel for a zero denominator.
- `histogramCorrelationGray`.
- `hamming` on hash strings, and the record that `pHashDistance` builds from the two hashes.

**The older pipeline of `src/cme.ts`**:
- `loadImageAsMatrix` regroups a decoded buffer into pixels of samples normalised to [0, 1].
- `mse` and `absDiffMean` sum over every channel but divide by the pixel count.
- `buildHistogram`: 32 bins with a clamped index.
- `histogramCorrelation`: mean-centred Pearson correlation with no zero guard.
- `compareImages`: the size check and the result order MSE, SSIM, HistCorr, AbsDiffMean.

Every loop of the source is a Dafny `method` with loop invariants. Each method is
proved against a specification function (`ensures r == Mse(a, b)`,
`ensures h == Frequencies(...)`). The properties of those functions are proved as
lemmas: error cases, bounds, zero-iff-equal, symmetry, [-1, 1] ranges via
Cauchy–Schwarz, histograms that sum to 1, and round values for solid images.

Conventions:
- Numbers are exact: `int` for the integer sums, `real` for the quotients.
- `Math.round(x)` is `floor(x + 1/2)`.
- `Math.sqrt` is a parameter `sqrt: real -> real` constrained by `JsMath.IsSqrt`
  (non-negative, and its square is the argument). Dafny's reals have no root.
- `src/cme.ts` divides without a guard, so its results are `JsMath.JsNumber`
  values. `Finite`, `NaN` or a signed `Infinity` is what JavaScript's `/` gives
  (`JsMath.Divide`).

Modules, one per source concern:

| file | module | models |
|---|---|---|
| types.dfy | Types | the records of `src/types.ts`, the error values |
| jsmath.dfy | JsMath | Math.round, Math.abs, the Uint8ClampedArray store, JS division, the law of Math.sqrt |
| image.dfy | Image | `src/utils/image.ts` |
| mse.dfy | MseMetric | `src/metrics/mse.ts` |
| adsdiff.dfy | AbsDiffMetric | `src/metrics/adsdiff.ts` |
| sums.dfy | Sums | sums, dot products, Cauchy–Schwarz |
| counting.dfy | Counting | bin counts and frequencies |
| histogram.dfy | HistogramMetric | `src/metrics/histogram.ts` |
| phash.dfy | PHash | `src/metrics/phash.ts` |
| cme_matrix.dfy | CmeMatrix | `loadImageAsMatrix` in `src/cme.ts` |
| cme_errors.dfy | CmeErrors | `mse`, `absDiffMean` in `src/cme.ts` |
| cme_histogram.dfy | CmeHistogram | `buildHistogram`, `histogramCorrelation` in `src/cme.ts` |
| cme.dfy | Cme | `compareImages` in `src/cme.ts` |

Consequences of the code worth stating:
- **Solid images.** `corr` returns 0 only when its denominator is 0
  (`src/metrics/histogram.ts:24`). The 256-bin histogram of a solid image is
  one-hot, not constant, so its spread is not 0 and that branch never fires.
  - Two solid images of the same value correlate with value 1
    (`HistogramMetric.SolidImagesSameValue`).
  - Two solid images of different values correlate with -1/255
    (`HistogramMetric.SolidImagesDifferentValues`).
- **No zero guard in `src/cme.ts`.** `histogramCorrelation` divides by the root
  of the product of the spreads with no guard (`src/cme.ts:100`), unlike `corr`
  at `src/metrics/histogram.ts:24`. It yields NaN when a histogram is flat.
  `CmeHistogram.CentredAgreesWithCorr` proves two things:
  - exactly there it gives NaN where `corr` gives 0;
  - on the same pair of histograms the two correlation functions otherwise
    coincide. The two pipelines do not feed them the same histograms: 32 bins
    of the RGB mean in `src/cme.ts`, 256 bins of gray samples in
    `src/metrics/histogram.ts`.
- **Which samples are read.** `mseGray` and `meanAbsDiffGray` read only the first
  `width*height` samples. `histogramGray` divides by the buffer length, not by
  `width*height`.

## Model

| member | source | states |
|---|---|---|
| JsMath.Round | src/utils/image.ts:38 | Math.round returns the integer within one half of x, a half rounding up |
| JsMath.ClampByte | src/utils/image.ts:34-38 | a store into a Uint8ClampedArray keeps a value in 0..255 and clamps any other to 0 or 255 |
| JsMath.Divide | src/cme.ts:100 | JavaScript division is finite exactly when the divisor is non-zero; 0/0 is NaN and any other x/0 is an infinity with the sign of x |
| JsMath.SqrtZeroIff | src/cme.ts:100 | Math.sqrt(x) is 0 exactly when x is 0 |
| Image.Luma | src/utils/image.ts:38 | the stored luma is within 1/2 of 0.299r + 0.587g + 0.114b; it lies between the smallest and the largest of r, g, b (so in 0..255); a grey pixel r = g = b keeps its value |
| Image.ToGrayscaleFromRGBA | src/utils/image.ts:32-41 | width and height are kept; there are exactly width*height samples; sample j is the luma of data[4j], data[4j+1], data[4j+2], so alpha is never read |
| Image.ExtractGrayChannel | src/utils/image.ts:16-18 | width and height are kept; there are width*height samples and gray[j] == data[4j] |
| Image.AssertSameSize | src/utils/image.ts:44-48 | passes exactly when widths and heights agree; otherwise fails with both (width, height) pairs |
| MseMetric.SumSquaredDiff | src/metrics/mse.ts:9-12 | the sum of squared differences of n byte pairs lies in [0, 65025 n] |
| MseMetric.Mse | src/metrics/mse.ts:5-14 | fails, with both size pairs, exactly on a size mismatch; otherwise the record is labelled "MSE", has no details and a value in [0, 255^2] |
| MseMetric.MseGray | src/metrics/mse.ts:5-14 | the guard first, then the accumulator loop computes Mse: sum of squared differences over width*height |
| MseMetric.SumSquaredDiffZeroIff | src/metrics/mse.ts:9-12 | the sum is 0 exactly when the first n samples agree |
| MseMetric.SumSquaredDiffSymmetric | src/metrics/mse.ts:10-11 | the sum does not depend on the order of the buffers |
| MseMetric.SumSquaredDiffPrefix | src/metrics/mse.ts:9-10 | the sum reads only the first n samples of each buffer |
| MseMetric.MseZeroIff | src/metrics/mse.ts:8-13 | for same-size images the MSE is 0 exactly when the first width*height samples agree |
| MseMetric.MseSymmetric | src/metrics/mse.ts:6-13 | swapping the images keeps success or failure and leaves the record unchanged |
| MseMetric.MseReadsOnlyArea | src/metrics/mse.ts:8-10 | buffers that agree on their first width*height samples give the same result |
| AbsDiffMetric.SumAbsDiff | src/metrics/adsdiff.ts:9 | the sum of absolute differences of n byte pairs lies in [0, 255 n] |
| AbsDiffMetric.MeanAbsDiff | src/metrics/adsdiff.ts:5-11 | fails, with both size pairs, exactly on a size mismatch; otherwise the record is labelled "AbsDiffMean", has no details and a value in [0, 255] |
| AbsDiffMetric.MeanAbsDiffGray | src/metrics/adsdiff.ts:5-11 | the guard first, then the accumulator loop computes MeanAbsDiff |
| AbsDiffMetric.SumAbsDiffZeroIff | src/metrics/adsdiff.ts:9 | the sum is 0 exactly when the first n samples agree |
| AbsDiffMetric.SumAbsDiffSymmetric | src/metrics/adsdiff.ts:9 | the sum does not depend on the order of the buffers |
| AbsDiffMetric.MeanAbsDiffZeroIff | src/metrics/adsdiff.ts:8-10 | for same-size images the value is 0 exactly when the first width*height samples agree |
| AbsDiffMetric.MeanAbsDiffSymmetric | src/metrics/adsdiff.ts:6-10 | swapping the images keeps success or failure and leaves the record unchanged |
| Counting.CountSnoc | src/metrics/histogram.ts:7 | counting one more sample raises the count of its own bin by one and no other |
| Counting.CountsPartition | src/metrics/histogram.ts:7 | when every sample falls into a bin, the bin counts add up to the number of samples |
| Counting.FrequenciesSumToOne | src/metrics/histogram.ts:9-10 | the frequencies of a non-empty sequence whose samples all fall into the bins add up to 1 |
| Counting.FrequencyInUnitInterval | src/metrics/histogram.ts:9-10 | every frequency lies in [0, 1] |
| Counting.CountConstant | src/metrics/histogram.ts:7 | in a constant sequence its value occurs |s| times and every other value never |
| HistogramMetric.HistogramGray | src/metrics/histogram.ts:5-12 | the counting loop and the normalising loop give the count of each bin value over the buffer length |
| HistogramMetric.Corr | src/metrics/histogram.ts:15-25 | the five running sums and the Pearson formula with the 0 sentinel |
| HistogramMetric.CentredDot | src/metrics/histogram.ts:22 | n times the Pearson numerator is the dot product of the two n-scaled centred sequences |
| HistogramMetric.SpreadNonNegative | src/metrics/histogram.ts:23 | each variance term n*sumX2 - sumX^2 is non-negative |
| HistogramMetric.PearsonCauchySchwarz | src/metrics/histogram.ts:22-23 | num^2 is at most the product of the two variance terms, both non-negative (Cauchy–Schwarz) |
| HistogramMetric.CorrelationZeroDenominator | src/metrics/histogram.ts:23-24 | the denominator is 0 exactly when one histogram has spread 0, and then corr returns 0 |
| HistogramMetric.SpreadOfConstant | src/metrics/histogram.ts:23 | a constant histogram has spread 0 |
| HistogramMetric.CorrelationInRange | src/metrics/histogram.ts:24 | corr lies in [-1, 1], as its comment claims |
| HistogramMetric.CorrelationSymmetric | src/metrics/histogram.ts:17-24 | corr(x, y) == corr(y, x) for histograms of the same length |
| HistogramMetric.CorrelationWithItself | src/metrics/histogram.ts:15-24 | a histogram correlates with itself with value 1, or 0 when it has spread 0 |
| HistogramMetric.HistCorrRecord | src/metrics/histogram.ts:28-33 | fails, with both size pairs, exactly on a size mismatch; otherwise the record is labelled "HistCorr" and has no details |
| HistogramMetric.HistogramCorrelationGray | src/metrics/histogram.ts:28-33 | the guard, both histograms, then corr: computes HistCorrRecord |
| HistogramMetric.GrayHistogramIsDistribution | src/metrics/histogram.ts:5-11 | every byte sample falls into one of the 256 bins, so the gray histogram sums to 1 with entries in [0, 1] |
| HistogramMetric.HistogramCorrelationInRange | src/metrics/histogram.ts:28-33 | the reported value lies in [-1, 1] |
| HistogramMetric.HistogramCorrelationSymmetric | src/metrics/histogram.ts:28-33 | swapping the images keeps success or failure and the record |
| HistogramMetric.SolidHistogram | src/metrics/histogram.ts:7-10 | a solid image of value v has histogram 1 in bin v and 0 elsewhere |
| HistogramMetric.SolidImagesSameValue | src/metrics/histogram.ts:28-33 | two same-size solid images of one value give HistCorr 1 |
| HistogramMetric.SolidImagesDifferentValues | src/metrics/histogram.ts:28-33 | two same-size solid images of different values give HistCorr -1/255 |
| HistogramMetric.DisjointOneHotPearson | src/metrics/histogram.ts:22-24 | the sums of two disjoint one-hot 256-bin histograms give numerator -1 and spreads 255, so corr is -1/255 |
| Sums.CauchySchwarz | src/metrics/histogram.ts:22-24 | (x.y)^2 <= (x.x)(y.y): the inequality behind the range claim of both correlations |
| Sums.DotSymmetric | src/metrics/histogram.ts:20 | the dot product does not depend on the order of its operands |
| PHash.Mismatches | src/metrics/phash.ts:8 | the mismatch count over the first n positions is at most n |
| PHash.CommonLength | src/metrics/phash.ts:6 | the compared length is the length of one string and within both |
| PHash.Hamming | src/metrics/phash.ts:5-10 | the counting loop plus the length difference computes Distance |
| PHash.MismatchesCountSet | src/metrics/phash.ts:8 | the counter equals the number of positions holding different characters |
| PHash.EqualLengthDistance | src/metrics/phash.ts:6-9 | for equal-length strings the distance is the number of differing positions |
| PHash.MismatchesZeroIff | src/metrics/phash.ts:8 | no mismatch below n exactly when the first n characters agree |
| PHash.MismatchesSymmetric | src/metrics/phash.ts:8 | the mismatch count does not depend on the order of the strings |
| PHash.DistanceZeroIff | src/metrics/phash.ts:6-9 | hamming(a, b) == 0 exactly when a == b, so hamming(a, a) == 0 |
| PHash.DistanceSymmetric | src/metrics/phash.ts:6-9 | hamming(a, b) == hamming(b, a) |
| PHash.DistanceBounds | src/metrics/phash.ts:6-9 | the length difference <= hamming(a, b) <= the longer length |
| PHash.PHashRecord | src/metrics/phash.ts:18-19 | label "pHashHamming", both hashes as details, a value in [0, longer length] that is 0 exactly for equal hashes |
| PHash.PHashRecordSymmetric | src/metrics/phash.ts:18-19 | swapping the hashes leaves the value unchanged |
| CmeMatrix.Normalise | src/cme.ts:21 | a byte divided by 255 lies in [0, 1] |
| CmeMatrix.RegroupedSnoc | src/cme.ts:19-23 | pushing the pixel built from the next `channels` bytes keeps every pixel equal to its bytes, normalised |
| CmeMatrix.LoadImageAsMatrix | src/cme.ts:14-31 | keeps width, height and channels; yields width*height pixels; pixels[k][c] == data[k*channels + c] / 255, in [0, 1] |
| CmeErrors.Mse | src/cme.ts:37-49 | the nested loops compute the sum of squared differences over every channel of every pixel, divided by the pixel count |
| CmeErrors.AbsDiffMean | src/cme.ts:54-65 | the nested loops compute the sum of absolute differences over every channel, divided by the pixel count |
| CmeErrors.CostProperties | src/cme.ts:44-45 | each contribution is non-negative, 0 exactly for equal samples, symmetric, and at most 1 for samples in [0, 1] |
| CmeErrors.PixelErrorZeroIff | src/cme.ts:43-46 | the contributions of a pixel add up to 0 exactly when its samples agree |
| CmeErrors.ErrorSumZeroIff | src/cme.ts:39-47 | the running sum is non-negative and 0 exactly when every sample of the first k pixels agrees |
| CmeErrors.MeanErrorZeroIff | src/cme.ts:37-49 | mse and absDiffMean are non-negative and 0 exactly when the matrices agree on every sample, so 0 for identical inputs |
| CmeErrors.SamplewiseEqual | src/cme.ts:39-46 | for same-shape matrices, agreeing on every sample is being equal |
| CmeErrors.PixelErrorSymmetric | src/cme.ts:43-46 | a pixel's contribution does not depend on the order of the matrices |
| CmeErrors.ErrorSumSymmetric | src/cme.ts:39-47 | the running sum does not depend on the order of same-shape matrices |
| CmeErrors.MeanErrorSymmetric | src/cme.ts:37-49 | mse and absDiffMean are symmetric in matrices of the same shape |
| CmeErrors.PixelErrorAtMost | src/cme.ts:60-62 | the n contributions of a pixel in [0, 1] add up to at most n |
| CmeErrors.ErrorSumAtMost | src/cme.ts:56-63 | the running sum over k pixels is at most k * channels |
| CmeErrors.MeanErrorAtMostChannels | src/cme.ts:54-65 | both values lie in [0, channels], not [0, 1], since they divide by pixels, not samples |
| CmeErrors.ChannelBoundReached | src/cme.ts:37-65 | the bound is reached: a transparent black pixel against an opaque white one differs by 1 in each of its 4 channels, so mse and absDiffMean both give 4, the channel count |
| CmeHistogram.BinIndexInRange | src/cme.ts:74-75 | for intensity in [0, 1] the index lies in [0, bins-1]; intensity 1 goes to bin bins-1 |
| CmeHistogram.BinIndices | src/cme.ts:73-77 | one bin index per pixel |
| CmeHistogram.BuildHistogram | src/cme.ts:70-81 | the in-place counting loop and the map give each bin's count over the pixel count |
| CmeHistogram.BuildHistogramIsDistribution | src/cme.ts:70-81 | the histogram has `bins` entries in [0, 1] that add up to 1 |
| CmeHistogram.Deviations | src/cme.ts:92-93 | one deviation per histogram entry |
| CmeHistogram.HistogramCorrelation | src/cme.ts:83-101 | the two means and the single pass compute num / sqrt(den1 * den2) over the centred values, as a JavaScript division |
| CmeHistogram.CentredStep | src/cme.ts:91-98 | each iteration adds a*b, a*a and b*b of the i-th deviations |
| CmeHistogram.CentredCorrelationOfDots | src/cme.ts:100 | the result is the quotient of the three accumulated sums |
| CmeHistogram.CentredCauchySchwarz | src/cme.ts:87-98 | den1 and den2 are non-negative and num^2 <= den1*den2 |
| CmeHistogram.CentredQuotient | src/cme.ts:100 | for sums satisfying Cauchy–Schwarz the quotient is never infinite, NaN exactly when den1 or den2 is 0, otherwise in [-1, 1] |
| CmeHistogram.CentredCorrelationCases | src/cme.ts:83-101 | histogramCorrelation is never infinite; it is NaN exactly when a histogram is flat (den1 or den2 is 0), otherwise in [-1, 1] |
| CmeHistogram.CentredCorrelationSymmetric | src/cme.ts:83-101 | symmetric in two histograms of the same length |
| CmeHistogram.CentredCorrelationWithItself | src/cme.ts:83-101 | a histogram correlates with itself with value 1, or NaN when it is flat |
| CmeHistogram.CentredDotOfSums | src/cme.ts:84-98 | the centred dot product equals the Pearson numerator of `corr` divided by n |
| CmeHistogram.CentredSumsOfPearson | src/cme.ts:84-98 | num, den1 and den2 are corr's numerator and variance terms, each divided by n |
| CmeHistogram.SqrtScale | src/cme.ts:100 | for m > 0 and q*m*m == p, Math.sqrt(q) == Math.sqrt(p) / m |
| CmeHistogram.ScaledRoot | src/cme.ts:100 | a non-negative root of q, where q*m*m == p and m > 0, is the non-negative root of p divided by m |
| CmeHistogram.ScaledQuotient | src/cme.ts:100 | scaling numerator and both spreads by 1/m changes the result only where the denominator is 0 (then NaN) |
| CmeHistogram.CentredAgreesWithCorr | src/cme.ts:83-101 | the mean-centred correlation equals corr of src/metrics/histogram.ts, except for a flat histogram, where it is NaN and corr is 0 |
| Cme.HistogramOf | src/cme.ts:151-152 | buildHistogram with the default bin count yields 32 entries |
| Cme.CompareImages | src/cme.ts:134-166 | the size check, then mse, absDiffMean, both histograms and their correlation, collected as Compare describes |
| Cme.CompareOutcome | src/cme.ts:138-163 | the error exactly when widths or heights differ. Otherwise four entries in the order MSE, SSIM, HistCorr, AbsDiffMean. MSE and AbsDiffMean are finite and in [0, channels]. HistCorr is never infinite, is NaN exactly for a flat histogram, and otherwise lies in [-1, 1] |
| Cme.CompareWithItself | src/cme.ts:144-163 | an image against itself: MSE 0, AbsDiffMean 0, HistCorr 1 (NaN for a flat histogram) |
| Cme.CompareZeroIffEqual | src/cme.ts:144-148 | for same-size images, MSE is 0 exactly when the pixel matrices are equal, and so is AbsDiffMean |
| Cme.CompareSymmetric | src/cme.ts:138-163 | swapping the two images keeps success or failure and leaves the MSE, HistCorr and AbsDiffMean entries unchanged, whatever SSIM reports for either order |

## Left out

- Decoding, resizing, `ensureAlpha` and `greyscale` are sharp codec calls behind async I/O. The model starts from the buffers they return:
  - `loadImageRGBA` and `resizeKeepAspect` in src/utils/image.ts.
  - The decode lines of `loadImageGray`.
  - The first lines of `loadImageAsMatrix`.
  - `loadImageData` in src/cme.ts.
- Cme.LoadedPair: what `resize(256, 256).ensureAlpha()` guarantees becomes a precondition of `compareImages`: non-empty images, equal channel counts, at least three channels. A grayscale input that sharp decodes with two channels is not modelled. There, `p[2]` is undefined and the histogram would see NaN.
- SSIM: `computeSSIM` and src/metrics/ssim.ts get their score from ssim.js. `compareImages` takes that score as a parameter.
- SSIM runs on the originals: `loadImageData` (src/cme.ts:106-115) decodes each file without the `resize(256, 256)` of src/cme.ts:11. What ssim.js does with images of different original sizes, including any error it throws, is outside the model.
- Cme.CompareOutcome: its size error covers only the matrix check of src/cme.ts:138. After `resize(256, 256)` both matrices are 256×256, so that check cannot fire on real inputs. The model keeps it for matrices of any size.
- Cme.CompareSymmetric: SSIM's symmetry is not modelled. The two orders take independent SSIM values, and the lemma states nothing about entry 1.
- `imghash.hash` and `Promise.all` in `pHashDistance` are a foreign library and async concurrency. `PHash.PHashRecord` takes the two hash strings as inputs.
- I/O is not modelled: src/diff/pixelmatch.ts (pixelmatch, a resize and a file write), src/compare.ts (the command line), `console.log`, and the self-running call at the end of src/cme.ts.
- src/index.ts only re-exports. Two of its paths are `./metrics/absdiff` and `./hashing/phash`; the code modelled for them lives in `src/metrics/adsdiff.ts` and `src/metrics/phash.ts`. src/index.ts is not part of this model.
- Floating point is not modelled. Values are exact reals:
  - `Math.round` ties in IEEE-754 arithmetic (for 299r + 587g + 114b ≡ 500 mod 1000) may differ from `floor(x + 1/2)`.
  - Rounding error in the sums is ignored.
- `Math.sqrt` is a parameter satisfying `JsMath.IsSqrt`, not a computed root.
- PHash.Hamming: a Dafny string is a sequence of Unicode scalar values, while JavaScript's `length` and `a[i]` count UTF-16 code units (src/metrics/phash.ts:6-8). The two agree on the ASCII hexadecimal hashes that imghash produces; strings outside the Basic Multilingual Plane are not modelled.
- MseMetric.Mse: the division by width*height is modelled only when it is not 0. A same-size pair of empty images, where JavaScript gives NaN, is excluded by `Types.PointwiseInputs`.
- AbsDiffMetric.MeanAbsDiff: the same exclusion of empty same-size images.
- HistogramMetric.HistCorrRecord: requires non-empty buffers when the sizes match. `histogramGray` divides by the buffer length.
- HistogramMetric.HistogramGray: a sample whose value is not below `bins` writes outside the Float64Array in JavaScript and is lost. The model's counts skip such samples just the same. With the default 256 bins, every byte sample has its bin.
- Image.ToGrayscaleFromRGBA: requires a buffer of exactly 4*width*height samples. The model does not cover the typed array's silent dropping of writes beyond width*height when the buffer is longer.
- Image.ExtractGrayChannel: requires a buffer of exactly 4*width*height samples, the layout that sharp's `greyscale().ensureAlpha()` produces.
- CmeErrors.Mse: requires the second matrix to have at least the first one's pixels and channels. The JavaScript `undefined` reads (NaN) past its end are not modelled.
- CmeErrors.AbsDiffMean: the same requirement as CmeErrors.Mse.
- CmeHistogram.HistogramCorrelation: requires `h1` no longer than `h2` and non-empty. Both are 32 bins in `compareImages`.
